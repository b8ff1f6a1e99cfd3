/**
  The check of a remote path before the item it names is renamed or deleted: the path must not lead
  to the root, the start directory, or anything above it. The check counts the depth of the path;
  here that is compared with walking the path from any directory.
 */
module ItemPath {
  import opened Text

  /** `split('/')`: the parts between slashes, empty ones included. */
  function SplitSlash(s: string): (parts: seq<string>)
    ensures parts != []
  {
    if s == "" then [""]
    else
      var rest := SplitSlash(s[1..]);
      if s[0] == '/' then [""] + rest else [[s[0]] + rest[0]] + rest[1..]
  }

  /** The home directory is where a channel starts, so "~" becomes ".". */
  function ProtocolPath(path: string): string {
    if path == "~" then "." else if "~/" <= path then "./" + path[2..] else path
  }

  function TrimSlashes(path: string): string {
    if path != "" && path[|path| - 1] == '/' then TrimSlashes(path[..|path| - 1]) else path
  }

  // ----- Walking a path -----

  function Enter(dir: seq<string>, part: string): seq<string> {
    if part == "" || part == "." then dir
    else if part == ".." then if dir == [] then [] else dir[..|dir| - 1]
    else dir + [part]
  }

  /** Where the parts lead from `dir`; the root is its own parent. */
  function Walk(dir: seq<string>, parts: seq<string>): seq<string> {
    if parts == [] then dir else Enter(Walk(dir, parts[..|parts| - 1]), parts[|parts| - 1])
  }

  /** From every start the parts lead strictly below it. */
  ghost predicate AlwaysBelow(parts: seq<string>) {
    forall dir :: dir < Walk(dir, parts)
  }

  /** An absolute path leads to something other than the root, a relative one strictly below any start. */
  ghost predicate LeadsBelow(path: string) {
    if "/" <= path then Walk([], SplitSlash(path)) != []
    else AlwaysBelow(SplitSlash(path))
  }

  /** On the way from `dir` no part leads above the root of names. */
  predicate StaysFrom(dir: seq<string>, parts: seq<string>) {
    parts == [] ||
    (&& StaysFrom(dir, parts[..|parts| - 1])
     && (parts[|parts| - 1] == ".." ==> Walk(dir, parts[..|parts| - 1]) != []))
  }

  /** No part leads above the start. */
  predicate StaysBelow(parts: seq<string>) {
    StaysFrom([], parts)
  }

  lemma {:induction false} WalkFromAnywhere(dir: seq<string>, parts: seq<string>)
    requires StaysBelow(parts)
    ensures Walk(dir, parts) == dir + Walk([], parts)
  {
    if parts == [] {
      assert dir + [] == dir;
    } else {
      var before, last := parts[..|parts| - 1], parts[|parts| - 1];
      WalkFromAnywhere(dir, before);
      var names := Walk([], before);
      hide Walk, StaysBelow;
      EnterBelow(dir, names, last);
    }
  }

  lemma EnterBelow(dir: seq<string>, names: seq<string>, part: string)
    requires part == ".." ==> names != []
    ensures Enter(dir + names, part) == dir + Enter(names, part)
  {
    if names != [] {
      assert (dir + names)[..|dir + names| - 1] == dir + names[..|names| - 1];
    }
    assert dir + (names + [part]) == dir + names + [part];
  }

  function FreshName(parts: seq<string>): (name: string)
    ensures name !in parts && name != "" && forall p :: p in parts ==> |p| < |name|
  {
    if parts == [] then "x"
    else
      var rest := FreshName(parts[1..]);
      assert parts == [parts[0]] + parts[1..];
      parts[0] + rest
  }

  /** Once a walk from a directory with a name of its own has left it, the name does not come back. */
  lemma {:induction false} NameIsGone(name: string, parts: seq<string>)
    requires name !in parts && !StaysBelow(parts)
    ensures name !in Walk([name], parts)
  {
    var before, last := parts[..|parts| - 1], parts[|parts| - 1];
    assert forall p :: p in before ==> p in parts;
    assert last in parts;
    if StaysBelow(before) {
      WalkFromAnywhere([name], before);
      assert [name] + [] == [name];
      assert [name][..0] == [];
    } else {
      NameIsGone(name, before);
      hide Walk;
      NameStaysGone(Walk([name], before), last, name);
    }
  }

  lemma NameStaysGone(dir: seq<string>, part: string, name: string)
    requires name !in dir && part != name
    ensures name !in Enter(dir, part)
  {
    if part == ".." && dir != [] {
      assert forall p :: p in dir[..|dir| - 1] ==> p in dir;
    }
  }

  /** A relative walk ends strictly below every start exactly if it never goes above and gets somewhere. */
  lemma BelowIff(parts: seq<string>)
    ensures AlwaysBelow(parts) <==> StaysBelow(parts) && Walk([], parts) != []
  {
    if StaysBelow(parts) {
      forall dir ensures Walk(dir, parts) == dir + Walk([], parts) {
        WalkFromAnywhere(dir, parts);
      }
      hide Walk, StaysBelow;
      assert Walk([], parts) == [] ==> !([] < Walk([], parts));
    } else {
      var name := FreshName(parts);
      NameIsGone(name, parts);
      hide Walk, StaysBelow;
      var end := Walk([name], parts);
      assert end != [] ==> end[0] in end;
    }
  }

  // ----- The check -----

  /** The tests on the whole text catch nothing that the depth does not. */
  lemma {:induction false} OnlySlashesAndDots(path: string)
    requires TrimSlashes(path) == "" || TrimSlashes(path) == "."
    ensures Walk([], SplitSlash(path)) == []
    decreases |path|
  {
    if path != "" && path[|path| - 1] == '/' {
      OnlySlashesAndDots(path[..|path| - 1]);
      SplitBeforeSlash(path[..|path| - 1]);
      assert path == path[..|path| - 1] + "/";
      var parts := SplitSlash(path[..|path| - 1]);
      assert (parts + [""])[..|parts|] == parts;
    } else if path == "." {
      NoSlash(".");
      assert ["."][..0] == [];
    } else {
      assert [""][..0] == [];
    }
  }

  lemma {:induction false} SplitBeforeSlash(s: string)
    ensures SplitSlash(s + "/") == SplitSlash(s) + [""]
  {
    if s == "" {
      assert ("" + "/")[1..] == "";
    } else {
      assert (s + "/")[1..] == s[1..] + "/";
      SplitBeforeSlash(s[1..]);
    }
  }

  lemma {:induction false} NoSlash(s: string)
    requires '/' !in s
    ensures SplitSlash(s) == [s]
  {
    if s == "" {
    } else {
      NoSlash(s[1..]);
      assert s == [s[0]] + s[1..];
    }
  }

  lemma {:induction false} SplitFirst(s: string, rest: string)
    requires '/' !in s
    ensures SplitSlash(s + ("/" + rest)) == [s] + SplitSlash(rest)
  {
    var whole := s + ("/" + rest);
    if s == "" {
      assert whole == "/" + rest && whole[1..] == rest;
    } else {
      assert whole[1..] == s[1..] + ("/" + rest);
      SplitFirst(s[1..], rest);
      assert s == [s[0]] + s[1..];
    }
  }

  /** For "~" with or without slashes behind it. */
  lemma HomeIsProtected(path: string)
    requires TrimSlashes(path) == "~"
    ensures TrimSlashes(ProtocolPath(path)) == "."
  {
    if path != "~" {
      SlashesBehind(path, "~");
      var n := |path| - 1;
      assert ProtocolPath(path) == "./" + path[2..];
      OnlySlashesBehind(".", path[1..]);
      assert "." + path[1..] == "./" + path[2..];
    }
  }

  lemma {:induction false} SlashesBehind(path: string, head: string)
    requires TrimSlashes(path) == head
    ensures |head| <= |path| && path[..|head|] == head && forall i :: |head| <= i < |path| ==> path[i] == '/'
    decreases |path|
  {
    if path != "" && path[|path| - 1] == '/' {
      SlashesBehind(path[..|path| - 1], head);
    }
  }

  lemma {:induction false} OnlySlashesBehind(head: string, slashes: string)
    requires head != "" && head[|head| - 1] != '/' && forall i :: 0 <= i < |slashes| ==> slashes[i] == '/'
    ensures TrimSlashes(head + slashes) == head
    decreases |slashes|
  {
    if slashes == "" {
      assert head + slashes == head;
    } else {
      var fewer := slashes[..|slashes| - 1];
      OnlySlashesBehind(head, fewer);
      assert (head + slashes)[..|head + slashes| - 1] == head + fewer;
    }
  }

  /** The path is accepted exactly if it leads below; white space around it is not looked at. */
  method ValidateItemPath(path: string) returns (ok: bool)
    ensures ok <==> LeadsBelow(ProtocolPath(Trim(path)))
  {
    hide Walk, StaysBelow, StaysFrom, AlwaysBelow, ProtocolPath, SplitSlash, TrimSlashes, Trim;
    var trimmed := Trim(path);
    var compact := TrimSlashes(trimmed);
    var protocol := ProtocolPath(trimmed);
    var isAbsolute := "/" <= protocol;
    var parts := SplitSlash(protocol);
    var depth := 0;
    var escaped := false;
    NoParts();
    for i := 0 to |parts|
      invariant depth == |Walk([], parts[..i])|
      invariant escaped <==> !isAbsolute && !StaysBelow(parts[..i])
    {
      OnePart(parts, i);
      var part := parts[i];
      if part == "" || part == "." {
      } else if part == ".." {
        if depth == 0 {
          if !isAbsolute {
            escaped := true;
          }
        } else {
          depth := depth - 1;
        }
      } else {
        depth := depth + 1;
      }
    }
    assert parts[..|parts|] == parts;
    BelowIff(parts);
    if compact == "" || compact == "." || compact == "~" {
      ProtectedAnyway(trimmed);
    }
    ok := !(compact == "" || compact == "." || compact == "~"
            || (isAbsolute && depth == 0) || (!isAbsolute && (escaped || depth == 0)));
  }

  lemma NoParts()
    ensures Walk([], []) == [] && StaysBelow([])
  {}

  lemma OnePart(parts: seq<string>, i: nat)
    requires i < |parts|
    ensures Walk([], parts[..i + 1]) == Enter(Walk([], parts[..i]), parts[i])
    ensures StaysBelow(parts[..i + 1]) <==> StaysBelow(parts[..i]) && (parts[i] == ".." ==> Walk([], parts[..i]) != [])
  {
    assert parts[..i + 1][..i] == parts[..i];
  }

  lemma ProtectedAnyway(trimmed: string)
    requires TrimSlashes(trimmed) in {"", ".", "~"}
    ensures Walk([], SplitSlash(ProtocolPath(trimmed))) == []
  {
    if TrimSlashes(trimmed) == "~" {
      HomeIsProtected(trimmed);
    } else {
      assert ProtocolPath(trimmed) == trimmed by {
        SlashesBehind(trimmed, TrimSlashes(trimmed));
      }
    }
    OnlySlashesAndDots(ProtocolPath(trimmed));
  }

  // ----- The path that is used -----

  /** From deeper down a walk ends no higher, and stays where the other one stays. */
  lemma {:induction false} DeeperStart(dir: seq<string>, deeper: seq<string>, parts: seq<string>)
    requires |dir| <= |deeper|
    ensures |Walk(dir, parts)| <= |Walk(deeper, parts)|
    ensures StaysFrom(dir, parts) ==> StaysFrom(deeper, parts)
  {
    if parts == [] {
    } else {
      DeeperStart(dir, deeper, parts[..|parts| - 1]);
    }
  }

  lemma {:induction false} WalkOn(dir: seq<string>, part: string, parts: seq<string>)
    ensures Walk(dir, [part] + parts) == Walk(Enter(dir, part), parts)
    ensures StaysFrom(dir, [part] + parts) <==> (part == ".." ==> dir != []) && StaysFrom(Enter(dir, part), parts)
  {
    var all := [part] + parts;
    if parts == [] {
      assert all == [part] && all[..0] == [];
    } else {
      assert all[..|all| - 1] == [part] + parts[..|parts| - 1];
      WalkOn(dir, part, parts[..|parts| - 1]);
    }
  }

  ghost predicate IsBlank(s: string) {
    forall i :: 0 <= i < |s| ==> IsWhiteSpace(s[i])
  }

  lemma {:induction false} BlankBehind(s: string)
    ensures IsBlank(s[|TrimEnd(s)|..])
  {
    hide IsWhiteSpace;
    if s != "" && IsWhiteSpace(s[|s| - 1]) {
      BlankBehind(s[..|s| - 1]);
      assert s[|TrimEnd(s)|..] == s[..|s| - 1][|TrimEnd(s)|..] + [s[|s| - 1]];
    }
  }

  lemma {:induction false} SplitBehindBlank(blank: string, s: string)
    requires IsBlank(blank)
    ensures SplitSlash(blank + s) == [blank + SplitSlash(s)[0]] + SplitSlash(s)[1..]
  {
    if blank == "" {
      assert blank + s == s && "" + SplitSlash(s)[0] == SplitSlash(s)[0];
    } else {
      assert IsWhiteSpace(blank[0]) && blank[0] != '/';
      hide IsWhiteSpace;
      assert (blank + s)[1..] == blank[1..] + s;
      SplitBehindBlank(blank[1..], s);
      assert [blank[0]] + (blank[1..] + SplitSlash(s)[0]) == blank + SplitSlash(s)[0];
    }
  }

  function LastRenamed(parts: seq<string>, behind: string): seq<string>
    requires parts != []
  {
    parts[..|parts| - 1] + [parts[|parts| - 1] + behind]
  }

  lemma RenamedBehind(first: string, rest: seq<string>, behind: string)
    requires rest != []
    ensures LastRenamed([first] + rest, behind) == [first] + LastRenamed(rest, behind)
  {}

  lemma RenamedWithFirst(front: string, rest: seq<string>, behind: string)
    requires rest != []
    ensures var renamed := LastRenamed(rest, behind);
            LastRenamed([front + rest[0]] + rest[1..], behind) == [front + renamed[0]] + renamed[1..]
  {
    if |rest| == 1 {
      assert front + rest[0] + behind == front + (rest[0] + behind);
    }
  }

  lemma {:induction false} SplitBeforeBlank(s: string, blank: string)
    requires IsBlank(blank)
    ensures SplitSlash(s + blank) == LastRenamed(SplitSlash(s), blank)
  {
    if s == "" {
      SplitBehindBlank(blank, "");
      assert s + blank == blank + "" && blank + "" == "" + blank;
    } else {
      assert (s + blank)[1..] == s[1..] + blank;
      SplitBeforeBlank(s[1..], blank);
      hide LastRenamed;
      RenamedBehind("", SplitSlash(s[1..]), blank);
      RenamedWithFirst([s[0]], SplitSlash(s[1..]), blank);
    }
  }

  /** The parts of the path sent to the server: a leading "~" is the start itself. */
  function SentParts(path: string): seq<string> {
    var parts := SplitSlash(path);
    if parts[0] == "~" then ["."] + parts[1..] else parts
  }

  lemma ProtocolParts(path: string)
    ensures SplitSlash(ProtocolPath(path)) == SentParts(path) && ("/" <= ProtocolPath(path) <==> "/" <= path)
  {
    if path == "~" {
      NoSlash("~");
      NoSlash(".");
    } else if "~/" <= path {
      SplitFirst("~", path[2..]);
      SplitFirst(".", path[2..]);
      assert path == "~" + ("/" + path[2..]) && "./" + path[2..] == "." + ("/" + path[2..]);
    } else {
      HomeFirst(path);
    }
  }

  lemma HomeFirst(path: string)
    ensures SplitSlash(path)[0] == "~" ==> path == "~" || "~/" <= path
  {
    FirstPart(path);
  }

  lemma {:induction false} FirstPart(path: string)
    ensures var first := SplitSlash(path)[0];
            first <= path && (first != path ==> path[|first|] == '/') && (first == "" <==> path == "" || path[0] == '/')
    ensures |SplitSlash(path)| == 1 <==> '/' !in path
  {
    if path == "" {
    } else {
      FirstPart(path[1..]);
      assert path == [path[0]] + path[1..];
    }
  }

  /** White space behind an accepted path only makes a name of its last part. */
  lemma BlankBehindIsHarmless(path: string, blank: string)
    requires IsBlank(blank) && blank != "" && LeadsBelow(ProtocolPath(path))
    ensures LeadsBelow(ProtocolPath(path + blank))
  {
    hide Walk, StaysFrom, AlwaysBelow, SplitSlash, ProtocolPath, IsWhiteSpace;
    ProtocolParts(path);
    ProtocolParts(path + blank);
    SplitBeforeBlank(path, blank);
    FirstPart(path);
    var parts, sent := SentParts(path), SentParts(path + blank);
    var n := |parts| - 1;
    var name := SplitSlash(path)[n] + blank;
    BlankEndsName(SplitSlash(path)[n], blank);
    assert sent == (if n == 0 then [] else parts[..n]) + [name];
    assert sent[..n] == if n == 0 then [] else parts[..n];
    BelowIff(parts);
    BelowIff(sent);
    NoParts();
    OnePart(parts + [""], n);
    assert (parts + [""])[..n] == parts[..n];
    LastPart(parts);
    LastPart(sent);
    AbsolutePathStarts(path, blank);
  }

  lemma AbsolutePathStarts(path: string, blank: string)
    requires LeadsBelow(ProtocolPath(path))
    ensures "/" <= path + blank <==> "/" <= path
  {
    NotEmpty(path);
    assert (path + blank)[0] == path[0];
  }

  lemma NotEmpty(path: string)
    requires LeadsBelow(ProtocolPath(path))
    ensures path != ""
  {
    assert SplitSlash("") == [""] && [""][..0] == [];
    var none: seq<string> := [];
    assert Walk(none, [""]) == none && !(none < none);
  }

  lemma LastPart(parts: seq<string>)
    requires parts != []
    ensures var before := parts[..|parts| - 1];
            && Walk([], parts) == Enter(Walk([], before), parts[|parts| - 1])
            && (StaysBelow(parts) ==> StaysBelow(before))
            && (StaysBelow(before) && parts[|parts| - 1] != ".." ==> StaysBelow(parts))
  {
  }

  lemma BlankEndsName(part: string, blank: string)
    requires IsBlank(blank) && blank != ""
    ensures part + blank !in {"", ".", "..", "~"}
  {
    var name := part + blank;
    assert name[|name| - 1] == blank[|blank| - 1] && IsWhiteSpace(blank[|blank| - 1]);
  }

  lemma BlankStartsName(blank: string, part: string)
    requires IsBlank(blank) && blank != ""
    ensures blank + part !in {"", ".", "..", "~"}
  {
    assert (blank + part)[0] == blank[0] && IsWhiteSpace(blank[0]);
  }

  /**
    White space before an accepted path makes a name of its first part. A relative path still leads
    below; an absolute one becomes relative, and leads below exactly if it never goes above its start.
   */
  lemma BlankInFrontIff(blank: string, path: string)
    requires IsBlank(blank) && blank != "" && LeadsBelow(ProtocolPath(path))
    ensures LeadsBelow(ProtocolPath(blank + path)) <==> ("/" <= path ==> StaysBelow(SplitSlash(blank + path)))
  {
    hide Walk, StaysFrom, AlwaysBelow, SplitSlash, ProtocolPath, IsWhiteSpace;
    var parts := SplitSlash(path);
    var first := if parts[0] == "~" then "." else parts[0];
    ProtocolParts(path);
    assert SentParts(path) == [first] + parts[1..];
    BlankStartsName(blank, parts[0]);
    SplitBehindBlank(blank, path);
    ProtocolParts(blank + path);
    BlankIsNoSlash(blank, path);
    BelowIff(SentParts(path));
    BelowIff(SplitSlash(blank + path));
    WalkOn([], first, parts[1..]);
    WalkOn([], blank + parts[0], parts[1..]);
    assert Enter([], blank + parts[0]) == [blank + parts[0]];
    DeeperStart(Enter([], first), [blank + parts[0]], parts[1..]);
  }

  lemma BlankIsNoSlash(blank: string, path: string)
    requires IsBlank(blank) && blank != ""
    ensures !("/" <= blank + path)
  {
    assert (blank + path)[0] == blank[0] && IsWhiteSpace(blank[0]) && "/"[0] == '/';
  }

  /** Exactly when the path as it is used leads below, given that the trimmed one was accepted. */
  lemma UsedPathLeadsBelowIff(path: string)
    requires LeadsBelow(ProtocolPath(Trim(path)))
    ensures path != ""
    ensures LeadsBelow(ProtocolPath(path))
            <==> (IsWhiteSpace(path[0]) && "/" <= Trim(path) ==> StaysBelow(SplitSlash(path)))
  {
    hide LeadsBelow, StaysBelow, SplitSlash, ProtocolPath, IsWhiteSpace;
    NotEmpty(Trim(path));
    var front, behind := BlankAround(path);
    var rest := Trim(path) + behind;
    AbsolutePathStarts(Trim(path), behind);
    if behind == "" {
      assert rest == Trim(path);
    } else {
      BlankBehindIsHarmless(Trim(path), behind);
    }
    if front == "" {
      assert path == rest;
    } else {
      BlankInFrontIff(front, rest);
    }
  }

  lemma BlankAround(path: string) returns (front: string, behind: string)
    requires Trim(path) != ""
    ensures path == front + (Trim(path) + behind) && IsBlank(front) && IsBlank(behind)
    ensures path != "" && (IsWhiteSpace(path[0]) <==> front != "")
  {
    var text := TrimStart(path);
    NotOnlyBlank(path);
    BlankBehind(text);
    hide IsWhiteSpace, TrimStart, TrimEnd;
    front, behind := path[..|path| - |text|], text[|Trim(path)|..];
    Cut(path, text, Trim(path));
  }

  lemma NotOnlyBlank(path: string)
    requires Trim(path) != ""
    ensures TrimStart(path) != ""
  {
    assert TrimEnd("") == "";
  }

  lemma Cut(path: string, text: string, kept: string)
    requires |text| <= |path| && text == path[|path| - |text|..] && kept <= text
    ensures path == path[..|path| - |text|] + (kept + text[|kept|..])
  {
    assert text == kept + text[|kept|..];
  }

  lemma SpaceInFront()
    ensures LeadsBelow(ProtocolPath(Trim(" /../../x"))) && !LeadsBelow(ProtocolPath(" /../../x"))
  {
    hide *;
    TrimmedExample();
    NoTilde("/../../x");
    NoTilde(" /../../x");
    AbsoluteExample();
    RelativeExample();
  }

  lemma NoTilde(path: string)
    requires path != "" && path[0] != '~'
    ensures ProtocolPath(path) == path
  {}

  lemma AbsoluteExample()
    ensures LeadsBelow("/../../x")
  {
    hide Walk, StaysBelow, SplitSlash;
    FourParts("");
    UpTwice("");
    assert "" + "/../../x" == "/../../x";
  }

  lemma RelativeExample()
    ensures !LeadsBelow(" /../../x")
  {
    hide Walk, StaysBelow, SplitSlash, AlwaysBelow;
    FourParts(" ");
    UpTwice(" ");
    var used := " " + "/../../x";
    assert used == " /../../x" && used[0] == ' ' && "/"[0] == '/';
    BelowIff([" ", "..", "..", "x"]);
  }

  lemma TrimmedExample()
    ensures Trim(" /../../x") == "/../../x"
  {
    SpaceIsTrimmed("/../../x");
    assert " " + "/../../x" == " /../../x";
  }

  lemma SpaceIsTrimmed(s: string)
    requires s != "" && !IsWhiteSpace(s[0]) && !IsWhiteSpace(s[|s| - 1])
    ensures Trim(" " + s) == s
  {
    assert IsWhiteSpace(' ');
    hide IsWhiteSpace;
    assert (" " + s)[1..] == s;
  }

  lemma FourParts(first: string)
    requires '/' !in first
    ensures SplitSlash(first + "/../../x") == [first, "..", "..", "x"]
  {
    hide SplitSlash;
    NoSlash("x");
    SplitFirst("..", "x");
    SplitFirst("..", "../x");
    SplitFirst(first, "../../x");
    assert ".." + ("/" + "x") == "../x" && ".." + ("/" + "../x") == "../../x" && "/" + "../../x" == "/../../x";
  }

  lemma UpTwice(first: string)
    requires first == "" || first == " "
    ensures var parts := [first, "..", "..", "x"]; Walk([], parts) == ["x"] && !StaysBelow(parts)
  {
    hide Walk, StaysBelow;
    var parts := [first, "..", "..", "x"];
    NoParts();
    assert parts[..0] == [] && parts[..4] == parts;
    OnePart(parts, 0);
    OnePart(parts, 1);
    OnePart(parts, 2);
    OnePart(parts, 3);
  }
}
