/**
  The scanner that shows the model's thoughts while its JSON answer is still streaming in. It
  reads the text received so far, tracks the object keys it is under, and picks up the string
  values at three fields.
 */
module JsonProjection {
  import opened JsonText
  import opened Text
  import opened ShellLexer

  type Key = seq<Unit>

  datatype Mode = KeyMode | ColonMode | ValueMode | CommaMode

  /** An open object. An empty `key` stands for no key: the scanner treats both alike. */
  datatype Context = Context(path: seq<Key>, key: Key, mode: Mode)

  /** A string value that was picked up, under the keys that lead to it. */
  datatype Event = Event(path: seq<Key>, value: seq<Unit>)

  const DOT: Unit := '.' as int

  /** The keys joined by dots. */
  function Joined(path: seq<Key>): Key {
    if path == [] then []
    else if |path| == 1 then path[0]
    else path[0] + [DOT] + Joined(path[1..])
  }

  const REASONING := [UnitsOf("thought"), UnitsOf("reasoning")]
  const OBSERVATION := [UnitsOf("thought"), UnitsOf("observation")]
  const FINISH_REASON := [UnitsOf("finishReason")]

  predicate IsTracked(field: Key) {
    field == Joined(REASONING) || field == Joined(OBSERVATION) || field == Joined(FINISH_REASON)
  }

  /** What a (possibly unfinished) string token yields in its context, and the context behind it. */
  function TokenEvents(context: Context, token: Decoded): seq<Event> {
    if context.mode == ValueMode && context.key != [] && IsTracked(Joined(context.path + [context.key]))
    then [Event(context.path + [context.key], token.value)] else []
  }

  function AfterToken(context: Context, token: Decoded): Context {
    if !token.complete then context
    else if context.mode == KeyMode then context.(key := token.value, mode := ColonMode)
    else if context.mode == ValueMode && context.key != [] then context.(mode := CommaMode)
    else context
  }

  function OpenObject(stack: seq<Context>): seq<Context> {
    if stack == [] || stack[0].mode != ValueMode then [Context([], [], KeyMode)] + stack
    else
      var path := if stack[0].key != [] then stack[0].path + [stack[0].key] else [];
      [Context(path, [], KeyMode), stack[0].(mode := CommaMode)] + stack[1..]
  }

  function AfterCharacter(context: Context, c: char): Context {
    if c == ':' && context.mode == ColonMode then context.(mode := ValueMode)
    else if c == ',' && context.mode == CommaMode then context.(key := [], mode := KeyMode)
    else if context.mode == ValueMode && !IsSpace(c) then context.(mode := CommaMode)
    else context
  }

  /** The events of a scan from the given stack of open objects (innermost first). */
  function Scan(stack: seq<Context>, s: string): seq<Event>
    decreases |s|
  {
    if s == "" then []
    else if s[0] == '{' then Scan(OpenObject(stack), s[1..])
    else if s[0] == '}' then Scan(if stack == [] then [] else stack[1..], s[1..])
    else if stack == [] then Scan([], s[1..])
    else if s[0] == '"' then
      var token := DecodeBody(s[1..]);
      TokenEvents(stack[0], token) + Scan([AfterToken(stack[0], token)] + stack[1..], token.rest)
    else Scan([AfterCharacter(stack[0], s[0])] + stack[1..], s[1..])
  }

  function Extract(source: string): seq<Event> {
    match Find(source, "{")
    case None => []
    case Some(first) => Scan([], source[first..])
  }

  /** The value map after a run of events; a later event overwrites an earlier one. */
  function Collected(events: seq<Event>): map<Key, seq<Unit>> {
    if events == [] then map[]
    else
      var last := events[|events| - 1];
      Collected(events[..|events| - 1])[Joined(last.path) := last.value]
  }

  lemma CollectedAppend(events: seq<Event>, event: Event)
    ensures Collected(events + [event]) == Collected(events)[Joined(event.path) := event.value]
  {
    assert (events + [event])[..|events|] == events;
  }

  /** The state of the scanning loop: what has been collected, and what is still to come. */
  ghost predicate Scanning(source: string, stack: seq<Context>, index: nat, events: seq<Event>,
          values: map<Key, seq<Unit>>) {
    && index <= |source| && values == Collected(events)
    && Extract(source) == events + Scan(stack, source[index..])
  }

  function StackBehind(stack: seq<Context>, c: char): seq<Context> {
    if c == '{' then OpenObject(stack)
    else if c == '}' then if stack == [] then [] else stack[1..]
    else if stack == [] then []
    else [AfterCharacter(stack[0], c)] + stack[1..]
  }

  lemma ScanCharacter(source: string, stack: seq<Context>, index: nat, events: seq<Event>, values: map<Key, seq<Unit>>)
    requires index < |source| && Scanning(source, stack, index, events, values)
    requires source[index] != '"' || stack == []
    ensures Scanning(source, StackBehind(stack, source[index]), index + 1, events, values)
  {
    hide Collected, Extract, OpenObject, AfterCharacter;
    var rest := source[index..];
    assert rest[0] == source[index] && rest[1..] == source[index + 1..];
  }

  lemma ScanToken(source: string, stack: seq<Context>, index: nat, end: nat, token: Decoded, events: seq<Event>,
          values: map<Key, seq<Unit>>)
    requires index < |source| && Scanning(source, stack, index, events, values)
    requires source[index] == '"' && stack != []
    requires token == DecodeBody(source[index + 1..]) && end <= |source| && token.rest == source[end..]
    ensures var seen := TokenEvents(stack[0], token);
            && index < end
            && Scanning(source, [AfterToken(stack[0], token)] + stack[1..], end, events + seen,
                 if seen == [] then values else values[Joined(seen[0].path) := seen[0].value])
  {
    hide Collected, Extract, DecodeBody, IsTracked, Joined;
    var rest := source[index..];
    assert rest[0] == source[index] && rest[1..] == source[index + 1..];
    var seen := TokenEvents(stack[0], token);
    var later := Scan([AfterToken(stack[0], token)] + stack[1..], token.rest);
    assert events + (seen + later) == events + seen + later;
    if seen != [] {
      CollectedAppend(events, seen[0]);
    } else {
      assert events + seen == events;
    }
  }

  method ExtractValues(source: string) returns (values: map<Key, seq<Unit>>)
    ensures values == Collected(Extract(source))
  {
    values := map[];
    var first := Find(source, "{");
    if first.None? {
      return;
    }
    var stack: seq<Context> := [];
    ghost var events: seq<Event> := [];
    var index := first.value;
    assert Scanning(source, stack, index, events, values);
    while index < |source|
      invariant index <= |source| && Scanning(source, stack, index, events, values)
      decreases |source| - index
    {
      hide Scanning, DecodeBody, IsTracked, Joined, AfterCharacter, AfterToken, OpenObject;
      var c := source[index];
      if c == '"' && stack != [] {
        var value, end, complete := DecodePartialJsonString(source, index);
        var token := Decoded(value, source[end..], complete);
        ScanToken(source, stack, index, end, token, events, values);
        var seen := TokenEvents(stack[0], token);
        if seen != [] {
          values := values[Joined(seen[0].path) := seen[0].value];
        }
        events := events + seen;
        stack := [AfterToken(stack[0], token)] + stack[1..];
        index := end;
        continue;
      }
      ScanCharacter(source, stack, index, events, values);
      if c == '{' {
        stack := OpenObject(stack);
      } else if c == '}' {
        stack := if stack == [] then [] else stack[1..];
      } else if stack != [] {
        stack := [AfterCharacter(stack[0], c)] + stack[1..];
      }
      index := index + 1;
    }
    assert source[|source|..] == "" && events + [] == events;
  }

  // ----- Every prefix of a text shows a prefix of the final values -----

  /** `early` are events of a text cut short: all but the last as in `final`, the last partial. */
  ghost predicate CutShort(early: seq<Event>, final: seq<Event>) {
    || early <= final
    || (&& early != [] && |early| <= |final|
        && var n := |early| - 1;
        && early[..n] == final[..n]
        && early[n].path == final[n].path && early[n].value <= final[n].value)
  }

  lemma {:induction false} DecodeOfPrefix(p: string, s: string)
    requires p <= s
    ensures var early, final := DecodeBody(p), DecodeBody(s);
            if early.complete then final == Decoded(early.value, early.rest + s[|p|..], true)
            else early.value <= final.value
    decreases |p|
  {
    if p != "" && p[0] == '"' {
      assert s[1..] == p[1..] + s[|p|..];
    } else if PieceLen(p) > 0 {
      var n := PieceLen(p);
      assert s == p + s[|p|..];
      PieceInContext(p, s[|p|..]);
      assert p[n..] <= s[n..] && s[n..][|p[n..]|..] == s[|p|..];
      DecodeOfPrefix(p[n..], s[n..]);
    }
  }

  lemma CutShortBehind(front: seq<Event>, early: seq<Event>, final: seq<Event>)
    requires CutShort(early, final)
    ensures CutShort(front + early, front + final)
  {
    if !(early <= final) {
      var n := |front + early| - 1;
      assert (front + early)[..n] == front + early[..|early| - 1];
      assert (front + final)[..n] == front + final[..|early| - 1];
    }
  }

  lemma {:induction false} ScanOfPrefix(stack: seq<Context>, p: string, s: string)
    requires p <= s
    ensures CutShort(Scan(stack, p), Scan(stack, s))
    decreases |p|
  {
    if p == "" {
    } else {
      assert p[1..] <= s[1..] && s[1..][|p[1..]|..] == s[|p|..];
      if p[0] == '{' {
        ScanOfPrefix(OpenObject(stack), p[1..], s[1..]);
      } else if p[0] == '}' {
        ScanOfPrefix(if stack == [] then [] else stack[1..], p[1..], s[1..]);
      } else if stack == [] {
        ScanOfPrefix([], p[1..], s[1..]);
      } else if p[0] == '"' {
        TokenOfPrefix(stack, p, s);
      } else {
        ScanOfPrefix([AfterCharacter(stack[0], p[0])] + stack[1..], p[1..], s[1..]);
      }
    }
  }

  lemma {:induction false} TokenOfPrefix(stack: seq<Context>, p: string, s: string)
    requires p <= s && p != "" && p[0] == '"' && stack != []
    ensures CutShort(Scan(stack, p), Scan(stack, s))
    decreases |p|, 0
  {
    hide IsTracked, Joined;
    assert p[1..] <= s[1..] && s[1..][|p[1..]|..] == s[|p|..];
    DecodeOfPrefix(p[1..], s[1..]);
    var early, final := DecodeBody(p[1..]), DecodeBody(s[1..]);
    var next := [AfterToken(stack[0], early)] + stack[1..];
    if early.complete {
      ScanOfPrefix(next, early.rest, early.rest + s[|p|..]);
      CutShortBehind(TokenEvents(stack[0], early), Scan(next, early.rest), Scan(next, final.rest));
    } else {
      assert Scan(next, early.rest) == [] && Scan(stack, p) == TokenEvents(stack[0], early);
    }
  }

  ghost predicate DistinctPaths(events: seq<Event>) {
    forall i, j :: 0 <= i < j < |events| ==> Joined(events[i].path) != Joined(events[j].path)
  }

  lemma {:induction false} CollectedOfDistinct(events: seq<Event>)
    requires DistinctPaths(events)
    ensures forall i :: 0 <= i < |events| ==>
              && Joined(events[i].path) in Collected(events)
              && Collected(events)[Joined(events[i].path)] == events[i].value
    ensures forall f :: f in Collected(events) ==> exists i :: 0 <= i < |events| && Joined(events[i].path) == f
  {
    if events == [] {
    } else {
      CollectedOfDistinct(events[..|events| - 1]);
    }
  }

  /** Every value shown early is the beginning of the value shown in the end. */
  ghost predicate ShowsPrefixes(early: map<Key, seq<Unit>>, final: map<Key, seq<Unit>>) {
    forall f :: f in early ==> f in final && early[f] <= final[f]
  }

  lemma CutShortPointwise(early: seq<Event>, final: seq<Event>, i: nat)
    requires CutShort(early, final) && i < |early|
    ensures i < |final| && early[i].path == final[i].path && early[i].value <= final[i].value
  {
    if !(early <= final) && i < |early| - 1 {
      assert early[i] == early[..|early| - 1][i] == final[..|early| - 1][i];
    }
  }

  lemma CutShortShowsPrefixes(early: seq<Event>, final: seq<Event>)
    requires CutShort(early, final) && DistinctPaths(final)
    ensures ShowsPrefixes(Collected(early), Collected(final))
  {
    hide Joined, CutShort, Collected;
    forall i | 0 <= i < |early|
      ensures i < |final| && early[i].path == final[i].path && early[i].value <= final[i].value
    {
      CutShortPointwise(early, final, i);
    }
    CollectedOfDistinct(early);
    CollectedOfDistinct(final);
  }

  // ----- What is extracted from printed JSON -----

  predicate IsKey(key: Key) {
    key != [] && DOT !in key
  }

  /** Keys are unique, non-empty and free of dots, and there are no arrays. */
  predicate IsPlainObject(v: Value) {
    match v
    case Str(_) => true
    case Bare(_) => true
    case Obj(_, members) => HasPlainMembers(members)
    case Arr(_, _) => false
  }

  predicate HasPlainMembers(ms: Members) {
    match ms
    case NoMembers => true
    case Member(_, key, _, _, value, _, rest) =>
      && IsKey(Content(key)) && !HasKey(rest, Content(key)) && IsPlainObject(value) && HasPlainMembers(rest)
  }

  predicate HasKey(ms: Members, key: Key) {
    match ms
    case NoMembers => false
    case Member(_, k, _, _, _, _, rest) => Content(k) == key || HasKey(rest, key)
  }

  /** The tracked string fields of a value that stands under `path`, in document order. */
  function Fields(v: Value, path: seq<Key>): seq<Event> {
    match v
    case Str(body) => if path != [] && IsTracked(Joined(path)) then [Event(path, Content(body))] else []
    case Bare(_) => []
    case Obj(_, members) => FieldsOf(members, path)
    case Arr(_, _) => []
  }

  function FieldsOf(ms: Members, path: seq<Key>): seq<Event> {
    match ms
    case NoMembers => []
    case Member(_, key, _, _, value, _, rest) => Fields(value, path + [Content(key)]) + FieldsOf(rest, path)
  }

  lemma {:induction false} SpaceIsSkipped(context: Context, below: seq<Context>, space: string, rest: string)
    requires IsJsonSpace(space)
    ensures Scan([context] + below, space + rest) == Scan([context] + below, rest)
  {
    if space == "" {
      assert space + rest == rest;
    } else {
      assert (space + rest)[1..] == space[1..] + rest && (space + rest)[0] == space[0];
      assert AfterCharacter(context, space[0]) == context;
      SpaceIsSkipped(context, below, space[1..], rest);
      assert ([context] + below)[1..] == below;
    }
  }

  lemma {:induction false} BareIsSkipped(context: Context, below: seq<Context>, text: string, rest: string)
    requires IsBare(text) && (context.mode == ValueMode || context.mode == CommaMode)
    ensures Scan([context] + below, text + rest) == Scan([context.(mode := CommaMode)] + below, rest)
    decreases |text|
  {
    assert (text + rest)[1..] == text[1..] + rest && (text + rest)[0] == text[0];
    assert AfterCharacter(context, text[0]) == context.(mode := CommaMode);
    assert ([context] + below)[1..] == below;
    if |text| > 1 {
      BareIsSkipped(context.(mode := CommaMode), below, text[1..], rest);
    } else {
      assert text[1..] + rest == rest;
    }
  }

  lemma QuoteInFront(body: string, rest: string)
    ensures var s := "\"" + body + "\"" + rest; s[0] == '"' && s[1..] == body + "\"" + rest
  {
  }

  lemma LiteralIsRead(context: Context, below: seq<Context>, body: string, rest: string)
    requires IsBody(body)
    ensures var token := Decoded(Content(body), rest, true);
            Scan([context] + below, "\"" + body + "\"" + rest) ==
            TokenEvents(context, token) + Scan([AfterToken(context, token)] + below, rest)
  {
    hide DecodeBody, Content, AfterToken, TokenEvents, IsBody;
    QuoteInFront(body, rest);
    BodyIsDecoded(body, rest);
    assert ([context] + below)[1..] == below;
  }

  lemma CharacterIsRead(context: Context, below: seq<Context>, c: char, rest: string)
    requires c == ':' || c == ','
    ensures Scan([context] + below, [c] + rest) == Scan([AfterCharacter(context, c)] + below, rest)
  {
    assert ([c] + rest)[1..] == rest && ([context] + below)[1..] == below;
  }

  /** A printed value in value position yields its fields and leaves the scanner behind it. */
  lemma {:induction false} ValueIsScanned(context: Context, below: seq<Context>, v: Value, rest: string)
    requires WellFormed(v) && IsPlainObject(v)
    requires context.mode == ValueMode && context.key != []
    ensures Scan([context] + below, Print(v) + rest) ==
            Fields(v, context.path + [context.key]) + Scan([context.(mode := CommaMode)] + below, rest)
    decreases v
  {
    hide Scan;
    match v
    case Str(body) =>
      LiteralIsRead(context, below, body, rest);
    case Bare(text) =>
      BareIsSkipped(context, below, text, rest);
      assert [] + Scan([context.(mode := CommaMode)] + below, rest) ==
          Scan([context.(mode := CommaMode)] + below, rest);
    case Obj(space, members) =>
      var path := context.path + [context.key];
      var outer := [context.(mode := CommaMode)] + below;
      ObjectText(space, members, rest);
      hide Print, PrintMembers;
      OpenBrace([context] + below, space + (PrintMembers(members) + ("}" + rest)));
      assert OpenObject([context] + below) == [Context(path, [], KeyMode)] + outer;
      SpaceIsSkipped(Context(path, [], KeyMode), outer, space, PrintMembers(members) + ("}" + rest));
      MembersAreScanned(Context(path, [], KeyMode), outer, members, rest);
  }

  lemma ObjectText(space: string, members: Members, rest: string)
    ensures Print(Obj(space, members)) + rest == "{" + (space + (PrintMembers(members) + ("}" + rest)))
  {
    assert Print(Obj(space, members)) == "{" + space + PrintMembers(members) + "}";
    hide Print, PrintMembers;
    Assoc("{" + space + PrintMembers(members), "}", rest);
    Assoc("{" + space, PrintMembers(members), "}" + rest);
    Assoc("{", space, PrintMembers(members) + ("}" + rest));
  }

  lemma OpenBrace(stack: seq<Context>, rest: string)
    ensures Scan(stack, "{" + rest) == Scan(OpenObject(stack), rest)
  {
    assert ("{" + rest)[1..] == rest;
  }

  lemma CloseBrace(context: Context, below: seq<Context>, rest: string)
    ensures Scan([context] + below, "}" + rest) == Scan(below, rest)
  {
    assert ("}" + rest)[1..] == rest && ([context] + below)[1..] == below;
  }

  lemma {:induction false} MembersAreScanned(context: Context, below: seq<Context>, ms: Members, rest: string)
    requires WellFormedMembers(ms) && HasPlainMembers(ms) && context.mode == KeyMode
    ensures Scan([context] + below, PrintMembers(ms) + ("}" + rest)) == FieldsOf(ms, context.path) + Scan(below, rest)
    decreases ms, 0
  {
    hide Scan;
    match ms
    case NoMembers =>
      assert PrintMembers(ms) + ("}" + rest) == "}" + rest;
      CloseBrace(context, below, rest);
      assert [] + Scan(below, rest) == Scan(below, rest);
    case Member(before, key, afterKey, beforeValue, value, after, more) =>
      FieldsOfMember(ms, context.path);
      MemberParts(ms);
      hide *;
      var tail := PrintMembers(more) + ("}" + rest);
      PrintOneMember(ms, "}" + rest);
      KeyIsScanned(context, below, ms, Print(value) + (ItemEnd(after, more.NoMembers?) + tail));
      var inValue := context.(key := Content(key), mode := ValueMode);
      ValueIsScanned(inValue, below, value, ItemEnd(after, more.NoMembers?) + tail);
      MemberEndIsScanned(inValue.(mode := CommaMode), below, after, more, rest);
      AssocEvents(Fields(value, context.path + [Content(key)]), FieldsOf(more, context.path), Scan(below, rest));
  }

  lemma AssocEvents(a: seq<Event>, b: seq<Event>, c: seq<Event>)
    ensures a + (b + c) == a + b + c
  {
  }

  lemma {:induction false} MemberEndIsScanned(context: Context, below: seq<Context>, after: string, more: Members,
          rest: string)
    requires IsJsonSpace(after) && WellFormedMembers(more) && HasPlainMembers(more) && context.mode == CommaMode
    ensures Scan([context] + below, ItemEnd(after, more.NoMembers?) + (PrintMembers(more) + ("}" + rest))) ==
            FieldsOf(more, context.path) + Scan(below, rest)
    decreases more, 1
  {
    hide Scan, PrintMembers, FieldsOf, ItemEnd;
    ItemEndIsScanned(context, below, after, more.NoMembers?, PrintMembers(more) + ("}" + rest));
    if more.NoMembers? {
      LastMemberIsScanned(context, below, more, rest);
    } else {
      MembersAreScanned(context.(key := [], mode := KeyMode), below, more, rest);
    }
  }

  lemma MemberParts(ms: Members)
    requires ms.Member? && WellFormedMembers(ms) && HasPlainMembers(ms)
    ensures WellFormed(ms.value) && IsJsonSpace(ms.after) && WellFormedMembers(ms.rest)
    ensures Content(ms.key) != [] && IsPlainObject(ms.value) && HasPlainMembers(ms.rest)
  {
  }

  lemma FieldsOfMember(ms: Members, path: seq<Key>)
    requires ms.Member?
    ensures FieldsOf(ms, path) == Fields(ms.value, path + [Content(ms.key)]) + FieldsOf(ms.rest, path)
  {
  }

  lemma ItemEndIsScanned(context: Context, below: seq<Context>, after: string, last: bool, tail: string)
    requires IsJsonSpace(after) && context.mode == CommaMode
    ensures Scan([context] + below, ItemEnd(after, last) + tail) ==
            Scan([if last then context else context.(key := [], mode := KeyMode)] + below, tail)
  {
    hide Scan;
    if last {
      assert ItemEnd(after, last) + tail == after + tail;
      SpaceIsSkipped(context, below, after, tail);
    } else {
      assert ItemEnd(after, last) + tail == after + ([','] + tail);
      SpaceIsSkipped(context, below, after, [','] + tail);
      CharacterIsRead(context, below, ',', tail);
    }
  }

  lemma LastMemberIsScanned(context: Context, below: seq<Context>, more: Members, rest: string)
    requires more.NoMembers?
    ensures Scan([context] + below, PrintMembers(more) + ("}" + rest)) ==
            FieldsOf(more, context.path) + Scan(below, rest)
  {
    assert PrintMembers(more) + ("}" + rest) == "}" + rest;
    CloseBrace(context, below, rest);
    assert [] + Scan(below, rest) == Scan(below, rest);
  }

  lemma PrintOneMember(ms: Members, rest: string)
    requires ms.Member?
    ensures var printed := Print(ms.value) + (ItemEnd(ms.after, ms.rest.NoMembers?) + (PrintMembers(ms.rest) + rest));
            PrintMembers(ms) + rest ==
            ms.before + ("\"" + ms.key + "\"" + (ms.afterKey + ([':'] + (ms.beforeValue + printed))))
  {
    hide *;
    PrintFirstMember(ms, rest);
    var printed := Print(ms.value) + (ItemEnd(ms.after, ms.rest.NoMembers?) + (PrintMembers(ms.rest) + rest));
    Assoc(ms.afterKey, ":", ms.beforeValue);
    Assoc(ms.afterKey, ":" + ms.beforeValue, printed);
    Assoc(":", ms.beforeValue, printed);
  }

  lemma KeyIsScanned(context: Context, below: seq<Context>, m: Members, printed: string)
    requires m.Member? && WellFormedMembers(m) && context.mode == KeyMode
    ensures Scan([context] + below,
                 m.before + ("\"" + m.key + "\"" + (m.afterKey + ([':'] + (m.beforeValue + printed))))) ==
            Scan([context.(key := Content(m.key), mode := ValueMode)] + below, printed)
  {
    hide Scan, Content;
    var colon := m.afterKey + ([':'] + (m.beforeValue + printed));
    SpaceIsSkipped(context, below, m.before, "\"" + m.key + "\"" + colon);
    LiteralIsRead(context, below, m.key, colon);
    var named := context.(key := Content(m.key), mode := ColonMode);
    SpaceIsSkipped(named, below, m.afterKey, [':'] + (m.beforeValue + printed));
    CharacterIsRead(named, below, ':', m.beforeValue + printed);
    SpaceIsSkipped(named.(mode := ValueMode), below, m.beforeValue, printed);
    assert [] + Scan([named] + below, colon) == Scan([named] + below, colon);
  }

  lemma {:induction false} NoObjectNoEvents(s: string)
    requires '{' !in s
    ensures Scan([], s) == []
  {
    if s == "" {
    } else {
      NoObjectNoEvents(s[1..]);
    }
  }

  lemma FieldsOfObject(v: Value)
    requires WellFormed(v) && IsPlainObject(v) && v.Obj?
    ensures Fields(v, []) == FieldsOf(v.members, [])
  {}

  /** The scan of an answer that holds one object, with other text around it. */
  lemma ExtractOfObject(lead: string, v: Value, trail: string)
    requires WellFormed(v) && IsPlainObject(v) && v.Obj?
    requires '{' !in lead && '{' !in trail
    ensures Extract(lead + Print(v) + trail) == Fields(v, [])
  {
    hide Scan, Fields, FieldsOf;
    var source := lead + Print(v) + trail;
    var inner := v.space + (PrintMembers(v.members) + ("}" + trail));
    assert Print(v) + trail == "{" + inner;
    assert source[|lead|..] == "{" + inner;
    FirstBrace(lead, "{" + inner);
    assert source == lead + ("{" + inner);
    OpenBrace([], inner);
    var context := Context([], [], KeyMode);
    assert OpenObject([]) == [context] + [];
    SpaceIsSkipped(context, [], v.space, PrintMembers(v.members) + ("}" + trail));
    MembersAreScanned(context, [], v.members, trail);
    NoObjectNoEvents(trail);
    assert FieldsOf(v.members, []) + [] == FieldsOf(v.members, []);
    FieldsOfObject(v);
  }

  lemma FirstBrace(lead: string, s: string)
    requires '{' !in lead && s != "" && s[0] == '{'
    ensures Find(lead + s, "{") == Some(|lead|)
  {
    var whole := lead + s;
    assert whole[|lead|..|lead| + 1] == "{";
    assert OccursAt(whole, "{", |lead|);
    forall j | 0 <= j < |lead| ensures !OccursAt(whole, "{", j) {
      assert whole[j..j + 1][0] == lead[j] && lead[j] in lead;
    }
  }

  // ----- Distinct paths -----

  ghost predicate AllKeys(path: seq<Key>) {
    forall i :: 0 <= i < |path| ==> IsKey(path[i])
  }

  /** Dot-free keys can be read off the joined path. */
  lemma {:induction false} JoinedIsInjective(a: seq<Key>, b: seq<Key>)
    requires AllKeys(a) && AllKeys(b) && a != [] && b != [] && Joined(a) == Joined(b)
    ensures a == b
  {
    FirstKey(a);
    FirstKey(b);
    FirstKeyIsNotLonger(a, b);
    FirstKeyIsNotLonger(b, a);
    assert a[0] == b[0];
    if |a| <= 1 {
    } else {
      assert Joined(a)[|a[0]| + 1..] == Joined(a[1..]);
      assert Joined(b)[|b[0]| + 1..] == Joined(b[1..]);
      JoinedIsInjective(a[1..], b[1..]);
      assert a == [a[0]] + a[1..] && b == [b[0]] + b[1..];
    }
  }

  lemma FirstKeyIsNotLonger(a: seq<Key>, b: seq<Key>)
    requires AllKeys(a) && AllKeys(b) && a != [] && b != [] && Joined(a) == Joined(b)
    ensures |b[0]| <= |a[0]|
  {
    FirstKey(a);
    FirstKey(b);
    assert forall k :: 0 <= k < |b[0]| ==> Joined(b)[k] == b[0][k] && b[0][k] != DOT;
  }

  lemma FirstKey(a: seq<Key>)
    requires AllKeys(a) && a != []
    ensures a[0] <= Joined(a) && (|a| > 1 <==> |a[0]| < |Joined(a)|)
    ensures |a| > 1 ==> Joined(a)[|a[0]|] == DOT && Joined(a)[|a[0]| + 1..] == Joined(a[1..])
  {
  }

  /** Everything found below `path` lies below it, under proper keys. */
  ghost predicate Below(events: seq<Event>, path: seq<Key>) {
    forall i :: 0 <= i < |events| ==>
      path <= events[i].path && AllKeys(events[i].path) && events[i].path != []
  }

  ghost predicate BelowMember(events: seq<Event>, ms: Members, path: seq<Key>) {
    forall i :: 0 <= i < |events| ==>
      |path| < |events[i].path| && path <= events[i].path && HasKey(ms, events[i].path[|path|])
  }

  ghost predicate DifferentPaths(events: seq<Event>) {
    forall i, j :: 0 <= i < j < |events| ==> events[i].path != events[j].path
  }

  lemma {:induction false} FieldsAreDistinct(v: Value, path: seq<Key>)
    requires IsPlainObject(v) && AllKeys(path)
    ensures Below(Fields(v, path), path) && DifferentPaths(Fields(v, path))
    decreases v
  {
    hide Content, Joined;
    if v.Obj? {
      MemberFieldsAreDistinct(v.members, path);
    }
  }

  lemma {:induction false} MemberFieldsAreDistinct(ms: Members, path: seq<Key>)
    requires HasPlainMembers(ms) && AllKeys(path)
    ensures Below(FieldsOf(ms, path), path) && DifferentPaths(FieldsOf(ms, path))
    ensures BelowMember(FieldsOf(ms, path), ms, path)
    decreases ms
  {
    if ms.Member? {
      var key := Content(ms.key);
      hide Content, Joined, Fields;
      var first, later := Fields(ms.value, path + [key]), FieldsOf(ms.rest, path);
      FieldsAreDistinct(ms.value, path + [key]);
      MemberFieldsAreDistinct(ms.rest, path);
      forall i | 0 <= i < |first|
        ensures path <= first[i].path && |path| < |first[i].path| && first[i].path[|path|] == key
      {
        assert (path + [key])[|path|] == key;
      }
    }
  }

  /** The string found by following keys from the root, as a JSON parser would see it. */
  function Lookup(v: Value, path: seq<Key>): Option<seq<Unit>>
    decreases v
  {
    match v
    case Str(body) => if path == [] then Some(Content(body)) else None
    case Obj(_, members) => if path == [] then None else LookupMember(members, path)
    case _ => None
  }

  function LookupMember(ms: Members, path: seq<Key>): Option<seq<Unit>>
    requires path != []
    decreases ms
  {
    match ms
    case NoMembers => None
    case Member(_, key, _, _, value, _, rest) =>
      if Content(key) == path[0] then Lookup(value, path[1..]) else LookupMember(rest, path)
  }

  ghost predicate Holds(events: seq<Event>, path: seq<Key>, value: seq<Unit>) {
    Event(path, value) in events
  }

  /** A tracked field is among the events exactly when looking it up finds it. */
  lemma {:induction false} FieldsMatchLookup(v: Value, base: seq<Key>, path: seq<Key>, value: seq<Unit>)
    requires IsPlainObject(v) && AllKeys(base) && IsTracked(Joined(base + path)) && base + path != []
    ensures Holds(Fields(v, base), base + path, value) <==> Lookup(v, path) == Some(value)
    decreases v
  {
    hide Content, Joined, IsTracked;
    match v
    case Str(body) =>
      if path == [] {
        assert base + path == base;
      } else {
        assert base + path != base;
      }
    case Obj(_, members) =>
      MemberFieldsAreDistinct(members, base);
      if path == [] {
        assert base + path == base;
      } else {
        MemberFieldsMatchLookup(members, base, path, value);
      }
    case Bare(_) =>
    case Arr(_, _) =>
  }

  lemma {:induction false} MemberFieldsMatchLookup(ms: Members, base: seq<Key>, path: seq<Key>, value: seq<Unit>)
    requires HasPlainMembers(ms) && AllKeys(base) && IsTracked(Joined(base + path)) && path != []
    ensures Holds(FieldsOf(ms, base), base + path, value) <==> LookupMember(ms, path) == Some(value)
    decreases ms
  {
    if ms.Member? {
      hide Content, Joined, IsTracked, Fields, Lookup, AllKeys;
      MemberFieldsMatchLookup(ms.rest, base, path, value);
      FirstMemberFields(ms, base, path, value);
      if Content(ms.key) == path[0] {
        LaterMemberFields(ms, base, path, value);
      }
    }
  }

  lemma KeysExtended(base: seq<Key>, key: Key)
    requires AllKeys(base) && IsKey(key)
    ensures AllKeys(base + [key])
  {
    hide IsKey;
  }

  lemma NotBelow(events: seq<Event>, base: seq<Key>, key: Key, path: seq<Key>, value: seq<Unit>)
    requires Below(events, base + [key]) && path != [] && path[0] != key
    ensures !Holds(events, base + path, value)
  {
    forall i | 0 <= i < |events| ensures events[i].path != base + path {
      assert (base + path)[|base|] == path[0] && (base + [key])[|base|] == key;
    }
  }

  lemma PlainMember(ms: Members)
    requires HasPlainMembers(ms) && ms.Member?
    ensures IsKey(Content(ms.key)) && IsPlainObject(ms.value)
  {
    hide Content, IsKey, IsPlainObject;
  }

  lemma OneKeyOn(base: seq<Key>, path: seq<Key>)
    requires path != []
    ensures base + path == base + [path[0]] + path[1..]
  {
  }

  /** Behind a member's key, its value is looked up; under another key it has no such field. */
  lemma {:induction false} FirstMemberFields(ms: Members, base: seq<Key>, path: seq<Key>, value: seq<Unit>)
    requires HasPlainMembers(ms) && ms.Member? && AllKeys(base) && IsTracked(Joined(base + path)) && path != []
    ensures var first := Fields(ms.value, base + [Content(ms.key)]);
            Holds(first, base + path, value) <==>
            Content(ms.key) == path[0] && Lookup(ms.value, path[1..]) == Some(value)
    decreases ms, 0
  {
    var key := Content(ms.key);
    hide *;
    PlainMember(ms);
    KeysExtended(base, key);
    if key == path[0] {
      OneKeyOn(base, path);
      FieldsMatchLookup(ms.value, base + [key], path[1..], value);
    } else {
      FieldsAreDistinct(ms.value, base + [key]);
      NotBelow(Fields(ms.value, base + [key]), base, key, path, value);
    }
  }

  /** A key is not repeated: the members behind it have no field under it. */
  lemma LaterMemberFields(ms: Members, base: seq<Key>, path: seq<Key>, value: seq<Unit>)
    requires HasPlainMembers(ms) && ms.Member? && AllKeys(base) && path != [] && Content(ms.key) == path[0]
    ensures !Holds(FieldsOf(ms.rest, base), base + path, value)
  {
    var key := Content(ms.key);
    hide Content, Joined, IsTracked, Fields, FieldsOf;
    MemberFieldsAreDistinct(ms.rest, base);
    assert (base + path)[|base|] == key;
  }

  lemma TrackedPathsAreKeys()
    ensures AllKeys(REASONING) && AllKeys(OBSERVATION) && AllKeys(FINISH_REASON)
  {
    hide UnitsOf;
    PlainUnits("thought");
    PlainUnits("reasoning");
    PlainUnits("observation");
    PlainUnits("finishReason");
  }

  lemma {:induction false} PlainUnits(s: string)
    requires s != "" && forall i :: 0 <= i < |s| ==> 'A' <= s[i] <= 'z'
    ensures IsKey(UnitsOf(s))
  {
    if |s| > 1 {
      PlainUnits(s[1..]);
    } else {
      assert UnitsOf(s[1..]) == [];
    }
  }

  /**
    From an answer that holds one object the scanner extracts, for each of the three fields,
    exactly the string a parser finds there, and every prefix of the answer shows a prefix
    of each of them.
   */
  lemma ProjectionIsExactAndMonotone(lead: string, v: Value, trail: string, field: seq<Key>, shown: string)
    requires WellFormed(v) && IsPlainObject(v) && v.Obj?
    requires '{' !in lead && '{' !in trail
    requires field == REASONING || field == OBSERVATION || field == FINISH_REASON
    requires shown <= lead + Print(v) + trail
    ensures var values := Collected(Extract(lead + Print(v) + trail));
            && (match Lookup(v, field)
                case Some(value) => Joined(field) in values && values[Joined(field)] == value
                case None => Joined(field) !in values)
            && ShowsPrefixes(Collected(Extract(shown)), values)
  {
    var source := lead + Print(v) + trail;
    hide Print, Joined, Lookup, Fields, Content, Collected;
    var events := Fields(v, []);
    ExtractOfObject(lead, v, trail);
    FieldsAreDistinct(v, []);
    PathsStayDistinct(events);
    CollectedOfDistinct(events);
    TrackedPathsAreKeys();
    FieldIsFound(v, field, events);
    ExtractOfPrefix(shown, source);
    CutShortShowsPrefixes(Extract(shown), events);
  }

  lemma PathsStayDistinct(events: seq<Event>)
    requires Below(events, []) && DifferentPaths(events)
    ensures DistinctPaths(events)
  {
    forall i, j | 0 <= i < j < |events| ensures Joined(events[i].path) != Joined(events[j].path) {
      if Joined(events[i].path) == Joined(events[j].path) {
        JoinedIsInjective(events[i].path, events[j].path);
        assert false;
      }
    }
  }

  lemma FieldIsFound(v: Value, field: seq<Key>, events: seq<Event>)
    requires IsPlainObject(v) && events == Fields(v, []) && IsTracked(Joined(field)) && AllKeys(field) && field != []
    requires Below(events, [])
    ensures match Lookup(v, field)
            case Some(value) => Event(field, value) in events
            case None => forall i :: 0 <= i < |events| ==> Joined(events[i].path) != Joined(field)
  {
    hide Lookup, Fields, Joined, IsTracked;
    assert [] + field == field;
    match Lookup(v, field)
    case Some(value) =>
      FieldsMatchLookup(v, [], field, value);
    case None =>
      forall i | 0 <= i < |events| ensures Joined(events[i].path) != Joined(field) {
        FieldsMatchLookup(v, [], field, events[i].value);
        assert events[i] == Event(events[i].path, events[i].value);
        if Joined(events[i].path) == Joined(field) {
          JoinedIsInjective(events[i].path, field);
          assert false;
        }
      }
  }

  lemma ExtractOfPrefix(shown: string, source: string)
    requires shown <= source
    ensures CutShort(Extract(shown), Extract(source))
  {
    match Find(shown, "{")
    case None =>
    case Some(first) =>
      forall j | 0 <= j <= first ensures OccursAt(source, "{", j) == OccursAt(shown, "{", j) {
        assert source[j..j + 1] == shown[j..j + 1];
      }
      assert Find(source, "{") == Some(first);
      ScanOfPrefix([], shown[first..], source[first..]);
  }
}
