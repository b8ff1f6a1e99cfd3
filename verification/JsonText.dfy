/**
  JSON text as the agent's model emits it: string literals with the escapes of section 7 of
  RFC 8259, and a concrete syntax that keeps every space, so that `Print` reaches every
  well-formed text. Decoded strings are sequences of UTF-16 code units.
 */
module JsonText {
  type Unit = u: int | 0 <= u < 0x1_0000

  function Units(c: char): (units: seq<Unit>)
    ensures units != []
  {
    var code := c as int;
    if code < 0x1_0000 then [code]
    else [0xD800 + (code - 0x1_0000) / 0x400, 0xDC00 + (code - 0x1_0000) % 0x400]
  }

  function UnitsOf(s: string): seq<Unit> {
    if s == "" then [] else Units(s[0]) + UnitsOf(s[1..])
  }

  predicate IsHex(c: char) {
    '0' <= c <= '9' || 'a' <= c <= 'f' || 'A' <= c <= 'F'
  }

  function HexValue(c: char): (v: nat)
    requires IsHex(c)
    ensures v < 16
  {
    if c <= '9' then c as int - '0' as int
    else if c <= 'F' then c as int - 'A' as int + 10
    else c as int - 'a' as int + 10
  }

  predicate FourHex(s: string) {
    |s| >= 4 && IsHex(s[0]) && IsHex(s[1]) && IsHex(s[2]) && IsHex(s[3])
  }

  function FourHexValue(s: string): Unit
    requires FourHex(s)
  {
    ((HexValue(s[0]) * 16 + HexValue(s[1])) * 16 + HexValue(s[2])) * 16 + HexValue(s[3])
  }

  /** The character a one-letter escape stands for; an unknown escape stands for itself. */
  function Unescape(c: char): char {
    match c
    case 'b' => '\U{8}'
    case 'f' => '\U{C}'
    case 'n' => '\n'
    case 'r' => '\r'
    case 't' => '\t'
    case _ => c
  }

  /** A decoded string, what follows its closing quote, and whether there was one. */
  datatype Decoded = Decoded(value: seq<Unit>, rest: string, complete: bool) {
    function Behind(units: seq<Unit>): Decoded {
      Decoded(units + value, rest, complete)
    }
  }

  /** Length of the piece of a literal at the head of `s`; 0 when the literal stops here. */
  function PieceLen(s: string): (n: nat)
    ensures n <= |s|
  {
    if s == "" || s[0] == '"' then 0
    else if s[0] != '\\' then 1
    else if |s| == 1 then 0
    else if s[1] != 'u' then 2
    else if FourHex(s[2..]) then 6 else 0
  }

  function PieceUnits(s: string): seq<Unit>
    requires PieceLen(s) > 0
  {
    if s[0] != '\\' then Units(s[0])
    else if s[1] == 'u' then [FourHexValue(s[2..])]
    else Units(Unescape(s[1]))
  }

  /** Decodes the text behind an opening quote, as far as it is there. */
  function DecodeBody(s: string): (d: Decoded)
    ensures |d.rest| <= |s| && (d.complete ==> |d.rest| < |s|)
    ensures !d.complete ==> d.rest == ""
    decreases |s|
  {
    if s != "" && s[0] == '"' then Decoded([], s[1..], true)
    else if PieceLen(s) == 0 then Decoded([], "", false)
    else DecodeBody(s[PieceLen(s)..]).Behind(PieceUnits(s))
  }

  /** `value` has been decoded from the text between `start` and `index`. */
  ghost predicate Reading(source: string, start: nat, index: nat, value: seq<Unit>) {
    && start <= index <= |source|
    && DecodeBody(source[start..]) == DecodeBody(source[index..]).Behind(value)
  }

  lemma ReadPiece(source: string, start: nat, index: nat, value: seq<Unit>)
    requires index < |source| && Reading(source, start, index, value)
    ensures var rest := source[index..];
            if rest[0] == '"' then DecodeBody(source[start..]) == Decoded(value, source[index + 1..], true)
            else if PieceLen(rest) == 0 then DecodeBody(source[start..]) == Decoded(value, "", false)
            else index + PieceLen(rest) <= |source|
                 && Reading(source, start, index + PieceLen(rest), value + PieceUnits(rest))
  {
    hide PieceLen, PieceUnits;
    var rest := source[index..];
    var n := PieceLen(rest);
    assert rest[n..] == source[index + n..] && value + [] == value;
    assert rest[1..] == source[index + 1..];
    if n > 0 {
      var behind := DecodeBody(rest[n..]);
      assert value + (PieceUnits(rest) + behind.value) == value + PieceUnits(rest) + behind.value;
    }
  }

  /** How far the loop below moves, from the characters it looks at. */
  lemma PieceByCharacters(source: string, index: nat)
    requires index < |source|
    ensures var rest := source[index..];
            && rest[0] == source[index]
            && (source[index] != '"' && source[index] != '\\' ==>
                  PieceLen(rest) == 1 && PieceUnits(rest) == Units(source[index]))
            && (source[index] == '\\' ==>
                  if index + 1 == |source| then PieceLen(rest) == 0
                  else if source[index + 1] != 'u' then
                    PieceLen(rest) == 2 && PieceUnits(rest) == Units(Unescape(source[index + 1]))
                  else if !FourHex(source[index + 2..]) then PieceLen(rest) == 0
                  else PieceLen(rest) == 6 && PieceUnits(rest) == [FourHexValue(source[index + 2..])])
  {
    assert index + 1 < |source| ==> source[index..][2..] == source[index + 2..];
  }

  method DecodePartialJsonString(source: string, start: nat) returns (value: seq<Unit>, end: nat, complete: bool)
    requires start < |source|
    ensures end <= |source| && Decoded(value, source[end..], complete) == DecodeBody(source[start + 1..])
  {
    hide *;
    value := [];
    var index := start + 1;
    StartReading(source, index);
    while index < |source|
      invariant start < index <= |source| && Reading(source, start + 1, index, value)
      decreases |source| - index
    {
      ReadPiece(source, start + 1, index, value);
      PieceByCharacters(source, index);
      var c := source[index];
      if c == '"' {
        return value, index + 1, true;
      }
      if c != '\\' {
        value := value + Units(c);
        index := index + 1;
        continue;
      }
      if index + 1 == |source| {
        break;
      }
      var escaped := source[index + 1];
      if escaped == 'u' {
        var digits := source[index + 2..];
        if !FourHex(digits) {
          break;
        }
        value := value + [FourHexValue(digits)];
        index := index + 6;
        continue;
      }
      value := value + Units(Unescape(escaped));
      index := index + 2;
    }
    if index == |source| {
      ReadToTheEnd(source, start + 1, value);
    }
    assert source[|source|..] == "";
    end, complete := |source|, false;
  }

  lemma StartReading(source: string, start: nat)
    requires start <= |source|
    ensures Reading(source, start, start, [])
  {
    assert [] + DecodeBody(source[start..]).value == DecodeBody(source[start..]).value;
  }

  lemma ReadToTheEnd(source: string, start: nat, value: seq<Unit>)
    requires Reading(source, start, |source|, value)
    ensures DecodeBody(source[start..]) == Decoded(value, "", false)
  {
    assert value + [] == value && source[|source|..] == "";
  }

  // ----- Concrete syntax -----

  datatype Value =
    | Str(body: string)
    | Bare(text: string)
    | Obj(space: string, members: Members)
    | Arr(space: string, elements: Elements)

  datatype Members =
    | NoMembers
    | Member(before: string, key: string, afterKey: string, beforeValue: string, value: Value, after: string,
        rest: Members)

  datatype Elements =
    | NoElements
    | Element(before: string, value: Value, after: string, rest: Elements)

  /** What follows a printed item: its trailing space, and a comma unless it is the last. */
  function ItemEnd(after: string, last: bool): string {
    after + if last then "" else ","
  }

  function Print(v: Value): (s: string)
    ensures |s| >= if v.Bare? then |v.text| else 2
  {
    match v
    case Str(body) => "\"" + body + "\""
    case Bare(text) => text
    case Obj(space, members) => "{" + space + PrintMembers(members) + "}"
    case Arr(space, elements) => "[" + space + PrintElements(elements) + "]"
  }

  function PrintMembers(ms: Members): string {
    match ms
    case NoMembers => ""
    case Member(before, key, afterKey, beforeValue, value, after, rest) =>
      before + ("\"" + key + "\"" + ((afterKey + ":" + beforeValue) +
        (Print(value) + (ItemEnd(after, rest.NoMembers?) + PrintMembers(rest)))))
  }

  function PrintElements(es: Elements): string {
    match es
    case NoElements => ""
    case Element(before, value, after, rest) =>
      before + (Print(value) + (ItemEnd(after, rest.NoElements?) + PrintElements(rest)))
  }

  lemma Assoc(a: string, b: string, c: string)
    ensures a + b + c == a + (b + c)
  {
  }

  lemma PrintFirstMember(ms: Members, rest: string)
    requires ms.Member?
    ensures PrintMembers(ms) + rest ==
            ms.before + ("\"" + ms.key + "\"" +
              ((ms.afterKey + ":" + ms.beforeValue) +
                (Print(ms.value) + (ItemEnd(ms.after, ms.rest.NoMembers?) + (PrintMembers(ms.rest) + rest)))))
  {
    hide Print, ItemEnd;
    var key, colon, value, end := "\"" + ms.key + "\"", ms.afterKey + ":" + ms.beforeValue, Print(ms.value),
                                  ItemEnd(ms.after, ms.rest.NoMembers?);
    var others := PrintMembers(ms.rest);
    assert PrintMembers(ms) == ms.before + (key + (colon + (value + (end + others))));
    hide PrintMembers;
    Assoc(end, others, rest);
    Assoc(value, end + others, rest);
    Assoc(colon, value + (end + others), rest);
    Assoc(key, colon + (value + (end + others)), rest);
    Assoc(ms.before, key + (colon + (value + (end + others))), rest);
  }

  lemma PrintFirstElement(es: Elements, rest: string)
    requires es.Element?
    ensures PrintElements(es) + rest ==
            es.before + (Print(es.value) + (ItemEnd(es.after, es.rest.NoElements?) + (PrintElements(es.rest) + rest)))
  {
    hide Print, ItemEnd;
    var value, end, others := Print(es.value), ItemEnd(es.after, es.rest.NoElements?), PrintElements(es.rest);
    assert PrintElements(es) == es.before + (value + (end + others));
    hide PrintElements;
    Assoc(end, others, rest);
    Assoc(value, end + others, rest);
    Assoc(es.before, value + (end + others), rest);
  }

  predicate IsJsonSpace(s: string) {
    forall i :: 0 <= i < |s| ==> s[i] in " \t\r\n"
  }

  /** The body of a literal: plain characters and complete escapes, no raw control characters. */
  predicate IsBody(s: string)
    decreases |s|
  {
    || s == ""
    || (s[0] != '"' && s[0] != '\\' && ' ' <= s[0] && IsBody(s[1..]))
    || (|s| >= 2 && s[0] == '\\' && s[1] in "\"\\/bfnrt" && IsBody(s[2..]))
    || (|s| >= 6 && s[0] == '\\' && s[1] == 'u' && FourHex(s[2..]) && IsBody(s[6..]))
  }

  /** Numbers, true, false and null. */
  predicate IsBare(s: string) {
    s != "" && forall i :: 0 <= i < |s| ==>
      'a' <= s[i] <= 'z' || 'A' <= s[i] <= 'Z' || '0' <= s[i] <= '9' || s[i] in "+-."
  }

  predicate WellFormed(v: Value) {
    match v
    case Str(body) => IsBody(body)
    case Bare(text) => IsBare(text)
    case Obj(space, members) => IsJsonSpace(space) && WellFormedMembers(members)
    case Arr(space, elements) => IsJsonSpace(space) && WellFormedElements(elements)
  }

  predicate WellFormedMembers(ms: Members) {
    match ms
    case NoMembers => true
    case Member(before, key, afterKey, beforeValue, value, after, rest) =>
      && IsJsonSpace(before) && IsBody(key) && IsJsonSpace(afterKey) && IsJsonSpace(beforeValue)
      && WellFormed(value) && IsJsonSpace(after) && WellFormedMembers(rest)
  }

  predicate WellFormedElements(es: Elements) {
    match es
    case NoElements => true
    case Element(before, value, after, rest) =>
      IsJsonSpace(before) && WellFormed(value) && IsJsonSpace(after) && WellFormedElements(rest)
  }

  /** The decoded content of a well-formed body. */
  function Content(body: string): seq<Unit> {
    DecodeBody(body + "\"").value
  }

  lemma {:induction false} BodyIsDecoded(body: string, rest: string)
    requires IsBody(body)
    ensures DecodeBody(body + "\"" + rest) == Decoded(Content(body), rest, true)
    decreases |body|
  {
    var whole := body + "\"" + rest;
    if body == "" {
      assert whole == "\"" + rest && whole[1..] == rest && body + "\"" == "\"";
    } else {
      var n := PieceLen(body);
      PieceInContext(body, "\"" + rest);
      PieceInContext(body, "\"");
      assert body + ("\"" + rest) == whole;
      assert whole[n..] == body[n..] + "\"" + rest && (body + "\"")[n..] == body[n..] + "\"";
      BodyIsDecoded(body[n..], rest);
      BodyIsDecoded(body[n..], "");
      assert body[n..] + "\"" + "" == body[n..] + "\"";
    }
  }

  lemma PieceInContext(s: string, more: string)
    requires PieceLen(s) > 0
    ensures PieceLen(s + more) == PieceLen(s) && PieceUnits(s + more) == PieceUnits(s)
    ensures (s + more)[PieceLen(s)..] == s[PieceLen(s)..] + more && (s + more)[0] == s[0] != '"'
  {
    if s[0] == '\\' && s[1] == 'u' {
      assert forall i :: 0 <= i < 4 ==> (s + more)[2..][i] == s[2..][i];
    }
  }
}
