/**
  The incremental UTF-8 decoder of the terminal transport: bytes arrive in arbitrary
  chunks, an unfinished character is held back until the next chunk, and truly invalid
  bytes become U+FFFD.

  `Encode` (section 3 of RFC 3629) is the independent reference: what the decoder treats as
  a character, as invalid or as unfinished is characterised by `Encode` alone.
 */
module Utf8 {
  import opened Text

  type Byte = b: int | 0 <= b < 0x100

  type Scalar = v: int | 0 <= v <= 0x10FFFF && !(0xD800 <= v <= 0xDFFF)

  const REPLACEMENT: Scalar := 0xFFFD

  /** All but the last six bits of a value, and the last six, which a continuation byte carries. */
  function High(v: nat): nat { v / 0x40 }

  function Tail(v: nat): (b: Byte)
    ensures IsContinuation(b)
  {
    var low := v % 0x40;
    0x80 + low
  }

  predicate IsContinuation(b: Byte) {
    0x80 <= b <= 0xBF
  }

  /** Appends the six bits of a continuation byte to a value. */
  function Extend(high: nat, b: Byte): (v: nat)
    requires IsContinuation(b)
    ensures High(v) == high && Tail(v) == b
  {
    var value: int := high * 0x40 + (b as int - 0x80);
    value
  }

  /** The reference encoding of one Unicode scalar value. */
  function Encode(v: Scalar): (bytes: seq<Byte>)
    ensures 1 <= |bytes| <= 4
  {
    if v < 0x80 then var ascii: Byte := v; [ascii]
    else if v < 0x800 then var lead: Byte := 0xC0 + High(v); [lead, Tail(v)]
    else if v < 0x10000 then var lead: Byte := 0xE0 + High(High(v)); [lead, Tail(High(v)), Tail(v)]
    else
      var lead: Byte := 0xF0 + High(High(High(v)));
      [lead, Tail(High(High(v))), Tail(High(v)), Tail(v)]
  }

  function EncodeAll(text: seq<Scalar>): seq<Byte> {
    if text == [] then [] else Encode(text[0]) + EncodeAll(text[1..])
  }

  /** What `std::str::from_utf8` finds at the head of a non-empty byte sequence. */
  datatype Head =
    | Valid(scalar: Scalar, len: nat)
    | Invalid(len: nat)
    | Incomplete

  /** Number of bytes announced by a lead byte; 0 for a byte that can never lead. */
  function Width(lead: Byte): nat {
    if lead < 0x80 then 1
    else if 0xC2 <= lead <= 0xDF then 2
    else if 0xE0 <= lead <= 0xEF then 3
    else if 0xF0 <= lead <= 0xF4 then 4
    else 0
  }

  /** The second-byte ranges that exclude overlong forms, surrogates and values past U+10FFFF. */
  predicate SecondByteAllowed(lead: Byte, b: Byte) {
    && IsContinuation(b)
    && (lead == 0xE0 ==> 0xA0 <= b)
    && (lead == 0xED ==> b <= 0x9F)
    && (lead == 0xF0 ==> 0x90 <= b)
    && (lead == 0xF4 ==> b <= 0x8F)
  }

  function Classify(s: seq<Byte>): (h: Head)
    requires s != []
    ensures !h.Incomplete? ==> 1 <= h.len <= |s|
  {
    var lead: int := s[0];
    var width := Width(s[0]);
    if width == 0 then Invalid(1)
    else if width == 1 then Valid(lead, 1)
    else if |s| == 1 then Incomplete
    else if !SecondByteAllowed(s[0], s[1]) then Invalid(1)
    else if width == 2 then Valid(Extend(lead - 0xC0, s[1]), 2)
    else if |s| == 2 then Incomplete
    else if !IsContinuation(s[2]) then Invalid(2)
    else if width == 3 then Valid(Extend(Extend(lead - 0xE0, s[1]), s[2]), 3)
    else if |s| == 3 then Incomplete
    else if !IsContinuation(s[3]) then Invalid(3)
    else Valid(Extend(Extend(Extend(lead - 0xF0, s[1]), s[2]), s[3]), 4)
  }

  // ----- Classify is characterised by Encode -----

  ghost predicate StartsSomeEncoding(s: seq<Byte>) {
    exists v: Scalar :: s <= Encode(v)
  }

  lemma ValidHeadIsAnEncoding(s: seq<Byte>)
    requires s != [] && Classify(s).Valid?
    ensures Encode(Classify(s).scalar) == s[..Classify(s).len]
  {
  }

  lemma EncodingIsAValidHead(v: Scalar, rest: seq<Byte>)
    ensures Classify(Encode(v) + rest) == Valid(v, |Encode(v)|)
  {
  }

  /** Some character that begins with the given unfinished bytes. */
  function Completion(s: seq<Byte>): (padded: seq<Byte>)
    requires s != [] && Classify(s).Incomplete?
    ensures |s| <= 3 && s < padded
    ensures Classify(padded).Valid? && Classify(padded).len == |padded|
    decreases 4 - |s|
  {
    var next: Byte :=
      if |s| > 1 then 0x80 else if s[0] == 0xE0 then 0xA0 else if s[0] == 0xF0 then 0x90 else 0x80;
    if Classify(s + [next]).Valid? then s + [next] else Completion(s + [next])
  }

  lemma EncodingsAreComplete(v: Scalar)
    ensures Classify(Encode(v)) == Valid(v, |Encode(v)|)
  {
    EncodingIsAValidHead(v, []);
    assert Encode(v) + [] == Encode(v);
  }

  /** An unfinished head can be completed to a whole character, and is none itself. */
  lemma IncompleteHeadExtends(s: seq<Byte>)
    requires s != [] && Classify(s).Incomplete?
    ensures |s| <= 3 && StartsSomeEncoding(s)
    ensures forall v: Scalar :: Encode(v) != s
  {
    hide Encode;
    var padded := Completion(s);
    hide Classify;
    ValidHeadIsAnEncoding(padded);
    assert s <= Encode(Classify(padded).scalar);
    forall v: Scalar ensures Encode(v) != s {
      EncodingsAreComplete(v);
    }
  }

  /**
    The three verdicts partition the non-empty inputs: a head is valid exactly when some
    encoding is a prefix of it, unfinished exactly when it is a proper prefix of some
    encoding, and otherwise invalid, where the skipped bytes are the maximal subpart of
    section 3.9 of the Unicode Standard.
   */
  lemma ClassifyMeetsTheStandard(s: seq<Byte>)
    requires s != []
    ensures Classify(s).Valid? <==> exists v: Scalar :: Encode(v) <= s
    ensures Classify(s).Incomplete? <==> StartsSomeEncoding(s) && forall v: Scalar :: Encode(v) != s
    ensures Classify(s).Invalid? ==>
              var n := Classify(s).len;
              && (n < |s| ==> !StartsSomeEncoding(s[..n + 1]))
              && (n == 1 || StartsSomeEncoding(s[..n]))
  {
    forall v: Scalar | Encode(v) <= s ensures Classify(s) == Valid(v, |Encode(v)|) {
      EncodingIsAValidHead(v, s[|Encode(v)|..]);
      assert s == Encode(v) + s[|Encode(v)|..];
    }
    hide Encode, Classify;
    match Classify(s)
    case Valid(v, n) =>
      ValidHeadIsAnEncoding(s);
      forall w: Scalar | s <= Encode(w) ensures s == Encode(w) {
        EncodingsAreComplete(w);
        assert Encode(w) == s + Encode(w)[|s|..];
        ClassifyIgnoresWhatFollows(s, Encode(w)[|s|..]);
      }
    case Incomplete =>
      IncompleteHeadExtends(s);
    case Invalid(n) =>
      NoEncodingStartsInvalid(s);
      InvalidHeadIsDecidedEarly(s);
      if n < |s| {
        NoEncodingStartsInvalid(s[..n + 1]);
      }
      if n > 1 {
        IncompleteHeadExtends(s[..n]);
      }
  }

  lemma ClassifyIgnoresWhatFollows(s: seq<Byte>, more: seq<Byte>)
    requires s != [] && !Classify(s).Incomplete?
    ensures Classify(s + more) == Classify(s)
  {
  }

  lemma InvalidHeadIsDecidedEarly(s: seq<Byte>)
    requires s != [] && Classify(s).Invalid?
    ensures var n := Classify(s).len;
            && (n < |s| ==> Classify(s[..n + 1]) == Classify(s))
            && (n > 1 ==> Classify(s[..n]).Incomplete?)
  {
  }

  lemma NoEncodingStartsInvalid(s: seq<Byte>)
    requires s != [] && Classify(s).Invalid?
    ensures !StartsSomeEncoding(s)
  {
    hide Encode, Classify;
    if v: Scalar :| s <= Encode(v) {
      EncodingsAreComplete(v);
      assert Encode(v) == s + Encode(v)[|s|..];
      ClassifyIgnoresWhatFollows(s, Encode(v)[|s|..]);
      assert false;
    }
  }

  // ----- One-shot lossy decoding -----

  function Glyph(h: Head): Scalar
    requires !h.Incomplete?
  {
    if h.Valid? then h.scalar else REPLACEMENT
  }

  /** `String::from_utf8_lossy` on a whole byte sequence. */
  function Lossy(s: seq<Byte>): seq<Scalar> {
    if s == [] then []
    else
      var head := Classify(s);
      if head.Incomplete? then [REPLACEMENT] else [Glyph(head)] + Lossy(s[head.len..])
  }

  /** `std::str::from_utf8`: the decoded valid prefix, its length, and what stopped it. */
  datatype Utf8Result =
    | Ok(text: seq<Scalar>)
    | Err(text: seq<Scalar>, validUpTo: nat, errorLen: Option<nat>)

  lemma SliceOfRest(s: seq<Byte>, n: nat, from: nat)
    requires n + from <= |s|
    ensures s[n..][from..] == s[n + from..]
  {
  }

  function FromUtf8(s: seq<Byte>): (r: Utf8Result)
    ensures r.Err? ==> r.validUpTo < |s|
    ensures r.Err? ==> Classify(s[r.validUpTo..]) ==
                       if r.errorLen.Some? then Invalid(r.errorLen.value) else Incomplete
  {
    if s == [] then Ok([])
    else
      match Classify(s)
      case Invalid(n) => Err([], 0, Some(n))
      case Incomplete => Err([], 0, None)
      case Valid(v, n) =>
        match FromUtf8(s[n..])
        case Ok(text) => Ok([v] + text)
        case Err(text, upTo, len) =>
          SliceOfRest(s, n, upTo);
          Err([v] + text, n + upTo, len)
  }

  /** The decoded prefix re-encodes to exactly the bytes it came from. */
  lemma {:induction false} FromUtf8Encodes(s: seq<Byte>)
    ensures var r := FromUtf8(s);
            EncodeAll(r.text) == if r.Ok? then s else s[..r.validUpTo]
  {
    hide Encode, Classify;
    if s != [] && Classify(s).Valid? {
      ValidHeadIsAnEncoding(s);
      var n := Classify(s).len;
      FromUtf8Encodes(s[n..]);
      assert s == s[..n] + s[n..];
      var r := FromUtf8(s[n..]);
      if r.Err? {
        assert s[..n + r.validUpTo] == s[..n] + s[n..][..r.validUpTo];
      }
    }
  }

  lemma FromUtf8OfValid(s: seq<Byte>)
    requires s != [] && Classify(s).Valid?
    ensures var r, n, v := FromUtf8(s[Classify(s).len..]), Classify(s).len, Glyph(Classify(s));
            FromUtf8(s) == if r.Ok? then Ok([v] + r.text) else Err([v] + r.text, n + r.validUpTo, r.errorLen)
  {
    hide Classify;
  }

  lemma Assoc(a: seq<Scalar>, b: seq<Scalar>, c: seq<Scalar>)
    ensures a + (b + c) == a + b + c
  {
  }

  lemma LossyOfValid(s: seq<Byte>)
    requires s != [] && Classify(s).Valid?
    ensures Lossy(s) == [Glyph(Classify(s))] + Lossy(s[Classify(s).len..])
  {
    hide Classify;
  }

  lemma {:induction false} LossySkipsValidPrefix(s: seq<Byte>)
    ensures var r := FromUtf8(s);
            Lossy(s) == if r.Ok? then r.text else r.text + Lossy(s[r.validUpTo..])
  {
    if s != [] && Classify(s).Valid? {
      hide Classify, FromUtf8, Lossy;
      var n := Classify(s).len;
      var r := FromUtf8(s[n..]);
      LossySkipsValidPrefix(s[n..]);
      FromUtf8OfValid(s);
      LossyOfValid(s);
      if r.Err? {
        SliceOfRest(s, n, r.validUpTo);
        Assoc([Glyph(Classify(s))], r.text, Lossy(s[n + r.validUpTo..]));
      }
    } else {
      NoValidPrefix(s);
    }
  }

  lemma NoValidPrefix(s: seq<Byte>)
    requires s == [] || !Classify(s).Valid?
    ensures var r := FromUtf8(s);
            Lossy(s) == if r.Ok? then r.text else r.text + Lossy(s[r.validUpTo..])
  {
    hide Classify;
    assert s[0..] == s && [] + Lossy(s) == Lossy(s);
  }

  /** The text a decoder can release for some bytes, and the unfinished tail it must hold. */
  datatype Decoded = Decoded(text: seq<Scalar>, held: seq<Byte>) {
    function Behind(prefix: seq<Scalar>): (r: Decoded)
      ensures prefix == [] ==> r == this
    {
      assert [] + text == text;
      Decoded(prefix + text, held)
    }

    lemma BehindBehind(first: seq<Scalar>, second: seq<Scalar>)
      ensures Behind(second).Behind(first) == Behind(first + second)
    {
      assert first + (second + text) == first + second + text;
    }
  }

  function Released(s: seq<Byte>): (r: Decoded)
    ensures r.held == [] || Classify(r.held).Incomplete?
    ensures Lossy(s) == r.text + Lossy(r.held)
  {
    if s == [] then Decoded([], [])
    else
      var head := Classify(s);
      if head.Incomplete? then Decoded([], s)
      else Released(s[head.len..]).Behind([Glyph(head)])
  }

  /** Decoding can stop anywhere and continue from the held tail. */
  lemma {:induction false} ReleasedAppend(s: seq<Byte>, more: seq<Byte>)
    ensures Released(s + more) == Released(Released(s).held + more).Behind(Released(s).text)
  {
    hide Classify;
    if s == [] {
      assert s + more == more;
    } else if !Classify(s).Incomplete? {
      ClassifyIgnoresWhatFollows(s, more);
      var n := Classify(s).len;
      assert (s + more)[n..] == s[n..] + more;
      ReleasedAppend(s[n..], more);
      var rest := Released(s[n..]);
      Released(rest.held + more).BehindBehind([Glyph(Classify(s))], rest.text);
    }
  }

  /** What remains to be released once `from_utf8` has stopped. */
  function ReleasedBehind(r: Utf8Result, s: seq<Byte>): Decoded
    requires r.Err? ==> r.validUpTo + (if r.errorLen.Some? then r.errorLen.value else 0) <= |s|
  {
    if r.Ok? then Decoded([], [])
    else if r.errorLen.None? then Decoded([], s[r.validUpTo..])
    else Released(s[r.validUpTo + r.errorLen.value..]).Behind([REPLACEMENT])
  }

  /** Behind a character, the text grows by it and what remains stays the same. */
  lemma FromUtf8Step(s: seq<Byte>)
    requires s != [] && Classify(s).Valid?
    ensures var r, rest := FromUtf8(s), s[Classify(s).len..];
            && r.text == [Glyph(Classify(s))] + FromUtf8(rest).text
            && ReleasedBehind(r, s) == ReleasedBehind(FromUtf8(rest), rest)
  {
    hide Classify, Released, FromUtf8, Decoded.Behind;
    FromUtf8OfValid(s);
    var n := Classify(s).len;
    var r := FromUtf8(s[n..]);
    if r.Err? {
      SliceOfRest(s, n, r.validUpTo + if r.errorLen.Some? then r.errorLen.value else 0);
    }
  }

  lemma {:induction false} ReleasedAfterFromUtf8(s: seq<Byte>)
    ensures Released(s) == ReleasedBehind(FromUtf8(s), s).Behind(FromUtf8(s).text)
  {
    if s != [] && Classify(s).Valid? {
      hide Classify, FromUtf8, ReleasedBehind, Decoded.Behind;
      var rest := s[Classify(s).len..];
      ReleasedAfterFromUtf8(rest);
      FromUtf8Step(s);
      ReleasedBehind(FromUtf8(rest), rest).BehindBehind([Glyph(Classify(s))], FromUtf8(rest).text);
    } else {
      hide Classify;
    }
  }

  lemma HeldStays(held: seq<Byte>)
    requires held == [] || Classify(held).Incomplete?
    ensures Released(held) == Decoded([], held)
  {
    hide Classify;
  }

  lemma NothingInFront(decoded: Decoded)
    ensures decoded.Behind([]) == decoded
  {
  }

  lemma AllReleased(output: seq<Scalar>)
    ensures Released([]).Behind(output) == Decoded(output, [])
  {
    assert output + [] == output;
  }

  /** One round of the decoder's loop: everything before the stop is released. */
  lemma AdvanceOverFromUtf8(output: seq<Scalar>, rest: seq<Byte>)
    ensures var r := FromUtf8(rest);
            && (r.Ok? ==> Released(rest).Behind(output) == Decoded(output + r.text, []))
            && (r.Err? && r.errorLen.None? ==>
                  Released(rest).Behind(output) == Decoded(output + r.text, rest[r.validUpTo..]))
            && (r.Err? && r.errorLen.Some? ==>
                  Released(rest).Behind(output) ==
                  Released(rest[r.validUpTo + r.errorLen.value..]).Behind(output + r.text + [REPLACEMENT]))
  {
    hide Classify;
    var r := FromUtf8(rest);
    ReleasedAfterFromUtf8(rest);
    ReleasedBehind(r, rest).BehindBehind(output, r.text);
    if r.Err? && r.errorLen.Some? {
      Released(rest[r.validUpTo + r.errorLen.value..]).BehindBehind(output + r.text, [REPLACEMENT]);
    }
  }

  /** Text survives encoding followed by decoding. */
  lemma {:induction false} DecodeEncode(text: seq<Scalar>)
    ensures Lossy(EncodeAll(text)) == text
  {
    if text == [] {
    } else {
      var head := Encode(text[0]);
      EncodingIsAValidHead(text[0], EncodeAll(text[1..]));
      assert EncodeAll(text)[|head|..] == EncodeAll(text[1..]);
      DecodeEncode(text[1..]);
    }
  }

  /** Encoded text is valid UTF-8. */
  lemma {:induction false} EncodedTextIsValid(text: seq<Scalar>)
    ensures FromUtf8(EncodeAll(text)) == Ok(text)
  {
    if text == [] {
    } else {
      hide Encode, Classify;
      var head := Encode(text[0]);
      EncodingIsAValidHead(text[0], EncodeAll(text[1..]));
      assert EncodeAll(text)[|head|..] == EncodeAll(text[1..]);
      EncodedTextIsValid(text[1..]);
    }
  }

  /** Valid UTF-8 is decoded without loss: re-encoding the result gives the input back. */
  lemma EncodeDecode(s: seq<Byte>)
    requires FromUtf8(s).Ok?
    ensures EncodeAll(Lossy(s)) == s
  {
    LossySkipsValidPrefix(s);
    FromUtf8Encodes(s);
  }

  // ----- The stateful decoder -----

  class Utf8ChunkDecoder {
    var pending: seq<Byte>

    /** The held bytes are empty or the proper beginning of one character. */
    ghost predicate Valid()
      reads this
    {
      pending == [] || Classify(pending).Incomplete?
    }

    constructor ()
      ensures Valid() && pending == []
    {
      pending := [];
    }

    method Push(chunk: seq<Byte>) returns (output: seq<Scalar>)
      requires Valid()
      modifies this
      ensures Valid()
      ensures Decoded(output, pending) == Released(old(pending) + chunk)
    {
      hide Classify, FromUtf8, Encode, Released, ReleasedBehind, Decoded.Behind;
      if chunk == [] {
        assert pending + chunk == pending;
        HeldStays(pending);
        return [];
      }
      var bytes := pending + chunk;
      pending := [];
      output := [];
      var cursor := 0;
      assert bytes[0..] == bytes;
      NothingInFront(Released(bytes));
      while cursor < |bytes|
        invariant cursor <= |bytes| && pending == []
        invariant Released(bytes) == Released(bytes[cursor..]).Behind(output)
      {
        var rest := bytes[cursor..];
        AdvanceOverFromUtf8(output, rest);
        match FromUtf8(rest)
        case Ok(text) =>
          output := output + text;
          cursor := |bytes|;
          assert bytes[cursor..] == [];
          AllReleased(output);
        case Err(text, validUpTo, errorLen) =>
          output := output + text;
          SliceOfRest(bytes, cursor, validUpTo);
          match errorLen {
            case Some(len) =>
              SliceOfRest(bytes, cursor, validUpTo + len);
              output := output + [REPLACEMENT];
              cursor := cursor + validUpTo + len;
            case None =>
              pending := bytes[cursor + validUpTo..];
              return;
          }
      }
      assert bytes[cursor..] == [];
      AllReleased(output);
    }

    method Finish() returns (output: seq<Scalar>)
      requires Valid()
      modifies this
      ensures Valid() && pending == []
      ensures output == Lossy(old(pending))
    {
      if pending == [] {
        return [];
      }
      output := Lossy(pending);
      pending := [];
    }
  }

  function Concat(chunks: seq<seq<Byte>>): seq<Byte> {
    if chunks == [] then [] else Concat(chunks[..|chunks| - 1]) + chunks[|chunks| - 1]
  }

  /** However the stream is cut, the decoder's outputs add up to the one-shot decoding. */
  method DecodeStream(chunks: seq<seq<Byte>>) returns (text: seq<Scalar>)
    ensures text == Lossy(Concat(chunks))
  {
    var decoder := new Utf8ChunkDecoder();
    text := [];
    for i := 0 to |chunks|
      invariant fresh(decoder) && decoder.Valid()
      invariant Decoded(text, decoder.pending) == Released(Concat(chunks[..i]))
    {
      assert chunks[..i + 1][..i] == chunks[..i];
      ReleasedAppend(Concat(chunks[..i]), chunks[i]);
      var output := decoder.Push(chunks[i]);
      text := text + output;
    }
    assert chunks[..|chunks|] == chunks;
    var tail := decoder.Finish();
    text := text + tail;
  }
}
