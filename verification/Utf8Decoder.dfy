/**
 Incremental lossy UTF-8 decoding of a child's output.

 The reference is the encoding of scalar values of section 3 of RFC 3629 and "U+FFFD Substitution of
 Maximal Subparts", section 3.9 of the Unicode Standard, written here as the relation
 `LossyDecoding`; the decoder never mentions either.  The decoder's side is the grammar of section 4
 of RFC 3629, byte by byte.
 */
module Utf8 {
  import opened Bytes
  import opened Sequences
  import opened Wrappers

  type Scalar = v: int | 0 <= v < 0x11_0000 && !(0xD800 <= v < 0xE000)

  const REPLACEMENT: Scalar := 0xFFFD

  // ---------------------------------------------------------------------------------------------
  // The reference: which byte strings are one character, and what an ill-formed stretch becomes
  // ---------------------------------------------------------------------------------------------

  /** The bits of a scalar value in one to four bytes. */
  function Encode(v: Scalar): (s: seq<byte>) {
    if v < 0x80 then [v]
    else if v < 0x800 then [0xC0 + v / 0x40, 0x80 + v % 0x40]
    else if v < 0x1_0000 then [0xE0 + v / 0x1000, 0x80 + v / 0x40 % 0x40, 0x80 + v % 0x40]
    else [0xF0 + v / 0x4_0000, 0x80 + v / 0x1000 % 0x40, 0x80 + v / 0x40 % 0x40, 0x80 + v % 0x40]
  }

  function EncodeAll(vs: seq<Scalar>): seq<byte> {
    if vs == [] then [] else Encode(vs[0]) + EncodeAll(vs[1..])
  }

  ghost predicate Character(s: seq<byte>) {
    exists v: Scalar :: s == Encode(v)
  }

  /** `s` is the beginning, but not the whole, of some character. */
  ghost predicate Initial(s: seq<byte>) {
    exists t :: Character(t) && s < t
  }

  ghost predicate StartsWithCharacter(s: seq<byte>) {
    exists n :: 0 < n <= |s| && Character(s[..n])
  }

  /** The longest stretch at the front of `s` that begins some character, or one byte. */
  ghost predicate MaximalSubpart(s: seq<byte>, n: nat) {
    && 0 < n <= |s|
    && (n == 1 || Initial(s[..n]))
    && forall m :: n < m <= |s| ==> !Initial(s[..m])
  }

  /** The first `n` bytes of `s` turn into `c`: a character, or one replacement. */
  ghost predicate Step(s: seq<byte>, n: nat, c: Scalar)
    requires 0 < n <= |s|
  {
    if StartsWithCharacter(s) then s[..n] == Encode(c)
    else MaximalSubpart(s, n) && c == REPLACEMENT
  }

  /** `text` is what the standard says `s` decodes to when ill-formed stretches are replaced. */
  ghost predicate LossyDecoding(s: seq<byte>, text: seq<Scalar>)
    decreases |s|
  {
    if s == [] then text == []
    else
      && text != []
      && (exists n :: 0 < n <= |s| && LossyDecoding(s[n..], text[1..]) && Step(s, n, text[0]))
  }

  // ---------------------------------------------------------------------------------------------
  // The grammar
  // ---------------------------------------------------------------------------------------------

  predicate Tail(b: byte) { 0x80 <= b <= 0xBF }

  /** The second byte allowed after the given lead byte of a three- or four-byte character. */
  predicate SecondOk(lead: byte, b: byte) {
    if lead == 0xE0 then 0xA0 <= b <= 0xBF
    else if lead == 0xED then 0x80 <= b <= 0x9F
    else if lead == 0xF0 then 0x90 <= b <= 0xBF
    else if lead == 0xF4 then 0x80 <= b <= 0x8F
    else Tail(b)
  }

  predicate WellFormed(s: seq<byte>) {
    || (|s| == 1 && s[0] <= 0x7F)
    || (|s| == 2 && 0xC2 <= s[0] <= 0xDF && Tail(s[1]))
    || (|s| == 3 && 0xE0 <= s[0] <= 0xEF && SecondOk(s[0], s[1]) && Tail(s[2]))
    || (|s| == 4 && 0xF0 <= s[0] <= 0xF4 && SecondOk(s[0], s[1]) && Tail(s[2]) && Tail(s[3]))
  }

  function Bits(b: byte, marker: byte): int {
    b as int - marker as int
  }

  function ScalarOf(s: seq<byte>): Scalar
    requires WellFormed(s)
  {
    if |s| == 1 then s[0]
    else if |s| == 2 then Bits(s[0], 0xC0) * 0x40 + Bits(s[1], 0x80)
    else if |s| == 3 then Bits(s[0], 0xE0) * 0x1000 + Bits(s[1], 0x80) * 0x40 + Bits(s[2], 0x80)
    else Bits(s[0], 0xF0) * 0x4_0000 + Bits(s[1], 0x80) * 0x1000 + Bits(s[2], 0x80) * 0x40 + Bits(s[3], 0x80)
  }

  lemma EncodeShort(v: Scalar)
    requires v < 0x800
    ensures WellFormed(Encode(v)) && ScalarOf(Encode(v)) == v
  {
  }

  lemma EncodeThree(v: Scalar)
    requires 0x800 <= v < 0x1_0000
    ensures WellFormed(Encode(v)) && ScalarOf(Encode(v)) == v
  {
    assert v / 0x1000 * 0x40 + v / 0x40 % 0x40 == v / 0x40;
  }

  lemma EncodeFour(v: Scalar)
    requires 0x1_0000 <= v
    ensures WellFormed(Encode(v)) && ScalarOf(Encode(v)) == v
  {
    assert v / 0x4_0000 * 0x40 + v / 0x1000 % 0x40 == v / 0x1000;
    assert v / 0x1000 * 0x40 + v / 0x40 % 0x40 == v / 0x40;
  }

  lemma EncodeRoundTrip(v: Scalar)
    ensures WellFormed(Encode(v)) && ScalarOf(Encode(v)) == v
  {
    hide *;
    if v < 0x800 {
      EncodeShort(v);
    } else if v < 0x1_0000 {
      EncodeThree(v);
    } else {
      EncodeFour(v);
    }
  }

  lemma OnlyShort(s: seq<byte>)
    requires WellFormed(s) && |s| <= 2
    ensures s == Encode(ScalarOf(s))
  {
  }

  lemma OnlyThree(s: seq<byte>)
    requires WellFormed(s) && |s| == 3
    ensures s == Encode(ScalarOf(s))
  {
    var a: int, b: int, c: int := s[0] - 0xE0, s[1] - 0x80, s[2] - 0x80;
    var v := ScalarOf(s);
    assert v == (a * 0x40 + b) * 0x40 + c;
    assert v / 0x40 == a * 0x40 + b && v % 0x40 == c;
    assert v / 0x1000 == a && v / 0x40 % 0x40 == b;
    assert 0x800 <= v < 0x1_0000;
  }

  lemma Digits(v: nat)
    ensures v / 0x1000 == v / 0x40 / 0x40 && v / 0x4_0000 == v / 0x1000 / 0x40
  {
  }

  lemma LastDigit(rest: nat, digit: nat)
    requires digit < 0x40
    ensures (rest * 0x40 + digit) / 0x40 == rest && (rest * 0x40 + digit) % 0x40 == digit
  {
  }

  lemma OnlyFour(s: seq<byte>)
    requires WellFormed(s) && |s| == 4
    ensures s == Encode(ScalarOf(s))
  {
    var a: nat, b: nat, c: nat, d: nat := s[0] - 0xF0, s[1] - 0x80, s[2] - 0x80, s[3] - 0x80;
    var v: nat := ScalarOf(s);
    assert v == ((a * 0x40 + b) * 0x40 + c) * 0x40 + d;
    assert v >= 0x1_0000;
    Digits(v);
    LastDigit((a * 0x40 + b) * 0x40 + c, d);
    LastDigit(a * 0x40 + b, c);
    LastDigit(a, b);
  }

  /** The grammar lets through nothing but encodings. */
  lemma OnlyEncodings(s: seq<byte>)
    requires WellFormed(s)
    ensures s == Encode(ScalarOf(s))
  {
    hide Encode, ScalarOf, SecondOk;
    if |s| <= 2 {
      OnlyShort(s);
    } else if |s| == 3 {
      OnlyThree(s);
    } else {
      OnlyFour(s);
    }
  }

  /** The grammar is the encoding: no overlong form, no surrogate, nothing past the last scalar value. */
  lemma GrammarIsEncoding(s: seq<byte>)
    ensures WellFormed(s) <==> Character(s)
    ensures forall v: Scalar :: s == Encode(v) <==> WellFormed(s) && v == ScalarOf(s)
  {
    if WellFormed(s) {
      OnlyEncodings(s);
    }
    forall v: Scalar | s == Encode(v) ensures WellFormed(s) && v == ScalarOf(s) {
      EncodeRoundTrip(v);
    }
  }

  // ---------------------------------------------------------------------------------------------
  // The scan the decoder performs at one position
  // ---------------------------------------------------------------------------------------------

  /** What the validator finds at the front of a nonempty byte string. */
  datatype Head = Valid(n: nat) | Invalid(n: nat) | Incomplete

  function HeadOf(s: seq<byte>): (h: Head)
    requires s != []
    ensures h.Valid? ==> 0 < h.n <= |s| && WellFormed(s[..h.n])
    ensures h.Invalid? ==> 0 < h.n <= |s|
  {
    var lead := s[0];
    if lead <= 0x7F then Valid(1)
    else if 0xC2 <= lead <= 0xDF then
      if |s| < 2 then Incomplete else if !Tail(s[1]) then Invalid(1) else Valid(2)
    else if 0xE0 <= lead <= 0xEF then
      if |s| < 2 then Incomplete else if !SecondOk(lead, s[1]) then Invalid(1)
      else if |s| < 3 then Incomplete else if !Tail(s[2]) then Invalid(2) else Valid(3)
    else if 0xF0 <= lead <= 0xF4 then
      if |s| < 2 then Incomplete else if !SecondOk(lead, s[1]) then Invalid(1)
      else if |s| < 3 then Incomplete else if !Tail(s[2]) then Invalid(2)
      else if |s| < 4 then Incomplete else if !Tail(s[3]) then Invalid(3) else Valid(4)
    else Invalid(1)
  }

  lemma InitialWitness(s: seq<byte>, t: seq<byte>)
    requires s < t && WellFormed(t)
    ensures Initial(s)
  {
    GrammarIsEncoding(t);
  }

  /** A verdict on a front does not depend on what follows, unless more bytes are needed. */
  lemma HeadStable(s: seq<byte>, t: seq<byte>)
    requires s != []
    ensures !HeadOf(s).Incomplete? ==> HeadOf(s + t) == HeadOf(s)
  {
  }

  lemma NotInitial(s: seq<byte>)
    requires s != [] && !HeadOf(s).Incomplete?
    ensures !Initial(s)
  {
    forall t | Character(t) ensures !(s < t) {
      GrammarIsEncoding(t);
      if |s| < |t| && s == t[..|s|] {
        HeadStable(s, t[|s|..]);
        HeadWellFormed(t);
      }
    }
  }

  /** A lead-in waiting for more bytes can always be completed to a character. */
  lemma IncompleteIsInitial(s: seq<byte>)
    requires s != [] && HeadOf(s).Incomplete?
    ensures |s| <= 3 && Initial(s)
  {
    var second := if |s| > 1 then s[1] else if s[0] == 0xE0 then 0xA0 else if s[0] == 0xF0 then 0x90 else 0x80;
    var t := [s[0], second] + (if |s| > 2 then [s[2]] else [0x80]) + [0x80];
    var n := if s[0] <= 0xDF then 2 else if s[0] <= 0xEF then 3 else 4;
    assert WellFormed(t[..n]);
    InitialWitness(s, t[..n]);
  }

  lemma HeadWellFormed(s: seq<byte>)
    requires WellFormed(s)
    ensures HeadOf(s) == Valid(|s|)
  {
  }

  /** A character at the front is what the scan finds, and it is the only one. */
  lemma CharacterIsHead(s: seq<byte>, n: nat)
    requires 0 < n <= |s| && WellFormed(s[..n])
    ensures HeadOf(s) == Valid(n)
  {
    HeadWellFormed(s[..n]);
    HeadStable(s[..n], s[n..]);
    assert s[..n] + s[n..] == s;
  }

  lemma InvalidHeadIsInitial(s: seq<byte>)
    requires s != [] && HeadOf(s).Invalid? && HeadOf(s).n > 1
    ensures Initial(s[..HeadOf(s).n])
  {
    IncompleteIsInitial(s[..HeadOf(s).n]);
  }

  /** The scan's three answers, in the standard's own words. */
  lemma HeadMeaning(s: seq<byte>)
    requires s != []
    ensures HeadOf(s).Valid? <==> StartsWithCharacter(s)
    ensures forall n :: 0 < n <= |s| && Character(s[..n]) ==> HeadOf(s) == Valid(n)
    ensures HeadOf(s).Invalid? ==> forall n :: MaximalSubpart(s, n) <==> n == HeadOf(s).n
    ensures HeadOf(s).Incomplete? ==> Initial(s) && |s| <= 3
    ensures HeadOf(s).Incomplete? ==> forall n :: MaximalSubpart(s, n) <==> n == |s|
  {
    forall n | 0 < n <= |s| && Character(s[..n]) ensures HeadOf(s) == Valid(n) {
      GrammarIsEncoding(s[..n]);
      CharacterIsHead(s, n);
    }
    if HeadOf(s).Valid? {
      GrammarIsEncoding(s[..HeadOf(s).n]);
    }
    if HeadOf(s).Invalid? {
      var k := HeadOf(s).n;
      forall m | k < m <= |s| ensures !Initial(s[..m]) {
        NotInitial(s[..m]);
      }
      if k > 1 {
        InvalidHeadIsInitial(s);
      }
    } else if HeadOf(s).Incomplete? {
      IncompleteIsInitial(s);
      assert s[..|s|] == s;
    }
  }

  // ---------------------------------------------------------------------------------------------
  // Decoding a whole string, leaving an unfinished character undecoded
  // ---------------------------------------------------------------------------------------------

  datatype Decoded = Decoded(text: seq<Scalar>, rest: seq<byte>)

  function Stream(s: seq<byte>): Decoded {
    if s == [] then Decoded([], [])
    else
      match HeadOf(s)
      case Valid(n) => var d := Stream(s[n..]); Decoded([ScalarOf(s[..n])] + d.text, d.rest)
      case Invalid(n) => var d := Stream(s[n..]); Decoded([REPLACEMENT] + d.text, d.rest)
      case Incomplete => Decoded([], s)
  }

  /** Decoding with nothing left to come. */
  function Lossy(s: seq<byte>): seq<Scalar> {
    var d := Stream(s);
    d.text + if d.rest == [] then [] else [REPLACEMENT]
  }

  lemma StreamOfNothing(s: seq<byte>)
    requires s == []
    ensures Stream(s) == Decoded([], [])
  {
  }

  lemma StreamStep(s: seq<byte>)
    requires s != []
    ensures HeadOf(s).Incomplete? ==> Stream(s) == Decoded([], s)
    ensures !HeadOf(s).Incomplete? ==>
              var n := HeadOf(s).n;
              Stream(s) == Decoded([if HeadOf(s).Valid? then ScalarOf(s[..n]) else REPLACEMENT] + Stream(s[n..]).text,
                                   Stream(s[n..]).rest)
  {
    hide HeadOf, ScalarOf, WellFormed;
  }

  lemma LossyStep(s: seq<byte>)
    requires s != []
    ensures HeadOf(s).Incomplete? ==> Lossy(s) == [REPLACEMENT]
    ensures !HeadOf(s).Incomplete? ==>
              var n := HeadOf(s).n;
              Lossy(s) == [if HeadOf(s).Valid? then ScalarOf(s[..n]) else REPLACEMENT] + Lossy(s[n..])
  {
    StreamStep(s);
    hide HeadOf, ScalarOf, WellFormed, Stream;
  }

  lemma {:induction false} StreamRest(s: seq<byte>)
    ensures |Stream(s).rest| <= 3
    ensures Stream(s).rest != [] ==> HeadOf(Stream(s).rest).Incomplete? && Initial(Stream(s).rest)
  {
    if s != [] {
      StreamStep(s);
      match HeadOf(s)
      case Valid(n) => StreamRest(s[n..]);
      case Invalid(n) => StreamRest(s[n..]);
      case Incomplete => IncompleteIsInitial(s);
    }
  }

  /** What the character or ill-formed stretch at the front turns into. */
  function HeadText(s: seq<byte>): seq<Scalar>
    requires s != [] && !HeadOf(s).Incomplete?
  {
    [if HeadOf(s).Valid? then ScalarOf(s[..HeadOf(s).n]) else REPLACEMENT]
  }

  function After(text: seq<Scalar>, d: Decoded): Decoded {
    Decoded(text + d.text, d.rest)
  }

  lemma AfterNothing(d: Decoded)
    ensures After([], d) == d
  {
    assert [] + d.text == d.text;
  }

  lemma AfterBoth(first: seq<Scalar>, second: seq<Scalar>, d: Decoded)
    ensures After(first, After(second, d)) == After(first + second, d)
  {
    assert first + (second + d.text) == first + second + d.text;
  }

  lemma StreamPastHead(a: seq<byte>, b: seq<byte>)
    requires a != [] && !HeadOf(a).Incomplete?
    ensures Stream(a + b) == After(HeadText(a), Stream(a[HeadOf(a).n..] + b))
  {
    HeadStable(a, b);
    StreamStep(a + b);
    hide HeadOf, WellFormed, ScalarOf, Stream;
    var n := HeadOf(a).n;
    assert (a + b)[n..] == a[n..] + b && (a + b)[..n] == a[..n];
  }

  /** Whatever was left undecoded is all that later input needs to know of earlier input. */
  lemma {:induction false} StreamAppend(a: seq<byte>, b: seq<byte>)
    ensures Stream(a + b) == After(Stream(a).text, Stream(Stream(a).rest + b))
    decreases |a|
  {
    if a == [] {
      StreamOfNothing(a);
      assert a + b == b && [] + b == b;
      AfterNothing(Stream(b));
    } else if HeadOf(a).Incomplete? {
      StreamStep(a);
      AfterNothing(Stream(a + b));
    } else {
      var later := a[HeadOf(a).n..];
      StreamPastHead(a, b);
      StreamAppend(later, b);
      AfterBoth(HeadText(a), Stream(later).text, Stream(Stream(later).rest + b));
      StreamPastHead(a, []);
      assert a + [] == a && later + [] == later;
      hide *;
    }
  }

  /** One more piece of input, after `a` has produced `done` and left `pending`. */
  lemma FeedStep(a: seq<byte>, done: seq<Scalar>, pending: seq<byte>, b: seq<byte>)
    requires Stream(a) == Decoded(done, pending)
    ensures Stream(a + b) == After(done, Stream(pending + b))
    ensures Lossy(a + b) == done + Lossy(pending + b)
  {
    hide HeadOf, WellFormed, ScalarOf;
    StreamAppend(a, b);
  }

  lemma LossyDecodingStep(s: seq<byte>, n: nat, text: seq<Scalar>)
    requires 0 < n <= |s| && text != [] && LossyDecoding(s[n..], text[1..]) && Step(s, n, text[0])
    ensures LossyDecoding(s, text)
  {
    hide Step;
  }

  lemma HeadIsStep(s: seq<byte>)
    requires s != []
    ensures HeadOf(s).Valid? ==> Step(s, HeadOf(s).n, ScalarOf(s[..HeadOf(s).n]))
    ensures HeadOf(s).Invalid? ==> Step(s, HeadOf(s).n, REPLACEMENT)
    ensures HeadOf(s).Incomplete? ==> Step(s, |s|, REPLACEMENT)
  {
    HeadMeaning(s);
    if HeadOf(s).Valid? {
      GrammarIsEncoding(s[..HeadOf(s).n]);
    }
    hide HeadOf, WellFormed, ScalarOf, MaximalSubpart, StartsWithCharacter, Encode;
  }

  lemma {:induction false} LossyIsLossyDecoding(s: seq<byte>)
    ensures LossyDecoding(s, Lossy(s))
    decreases |s|
  {
    if s == [] {
      assert Stream(s) == Decoded([], []);
    } else {
      HeadIsStep(s);
      LossyStep(s);
      hide HeadOf, WellFormed, ScalarOf, Lossy, Step;
      var n := if HeadOf(s).Incomplete? then |s| else HeadOf(s).n;
      if HeadOf(s).Incomplete? {
        assert s[n..] == [] && Lossy(s)[1..] == [];
      } else {
        LossyIsLossyDecoding(s[n..]);
        assert Lossy(s)[1..] == Lossy(s[n..]);
      }
      LossyDecodingStep(s, n, Lossy(s));
    }
  }

  lemma {:induction false} LossyDecodingUnique(s: seq<byte>, text: seq<Scalar>)
    requires LossyDecoding(s, text)
    ensures text == Lossy(s)
    decreases |s|
  {
    if s == [] {
      assert Stream(s) == Decoded([], []);
    } else {
      var n :| 0 < n <= |s| && LossyDecoding(s[n..], text[1..]) && Step(s, n, text[0]);
      StepIsHead(s, n, text[0]);
      LossyDecodingUnique(s[n..], text[1..]);
      LossyStep(s);
      hide HeadOf, WellFormed, ScalarOf, Step, Lossy;
      assert text == [text[0]] + text[1..];
      if HeadOf(s).Incomplete? {
        LossyOfNothing(s[n..]);
      }
    }
  }

  lemma LossyOfNothing(s: seq<byte>)
    requires s == []
    ensures Lossy(s) == []
  {
  }

  lemma StepIsHead(s: seq<byte>, n: nat, c: Scalar)
    requires 0 < n <= |s| && Step(s, n, c)
    ensures n == if HeadOf(s).Incomplete? then |s| else HeadOf(s).n
    ensures c == if HeadOf(s).Valid? then ScalarOf(s[..HeadOf(s).n]) else REPLACEMENT
  {
    HeadMeaning(s);
    GrammarIsEncoding(s[..n]);
    hide HeadOf, ScalarOf, MaximalSubpart, StartsWithCharacter, Encode;
  }

  /** One-shot decoding is exactly the substitution of maximal subparts. */
  lemma LossyMeetsStandard(s: seq<byte>, text: seq<Scalar>)
    ensures text == Lossy(s) <==> LossyDecoding(s, text)
  {
    LossyIsLossyDecoding(s);
    if LossyDecoding(s, text) {
      LossyDecodingUnique(s, text);
    }
  }

  /** Well-formed output passes through unchanged. */
  lemma {:induction false} LossyOfEncoded(vs: seq<Scalar>)
    ensures Lossy(EncodeAll(vs)) == vs
  {
    if vs != [] {
      var e, more := Encode(vs[0]), EncodeAll(vs[1..]);
      EncodeRoundTrip(vs[0]);
      assert (e + more)[..|e|] == e && (e + more)[|e|..] == more;
      CharacterIsHead(e + more, |e|);
      LossyOfEncoded(vs[1..]);
    }
  }

  // ---------------------------------------------------------------------------------------------
  // The decoder object
  // ---------------------------------------------------------------------------------------------

  /** The outcome of the library validator: how much is valid, and how long the error after it is. */
  datatype Verdict = AllValid | Error(validUpTo: nat, errorLen: Option<nat>)

  /** One character after another. */
  predicate AllWellFormed(s: seq<byte>)
    decreases |s|
  {
    s == [] || (HeadOf(s).Valid? && AllWellFormed(s[HeadOf(s).n..]))
  }

  lemma {:induction false} AllWellFormedSnoc(s: seq<byte>, character: seq<byte>)
    requires AllWellFormed(s) && WellFormed(character)
    ensures AllWellFormed(s + character)
    decreases |s|
  {
    HeadWellFormed(character);
    if s == [] {
      assert s + character == character && character[|character|..] == [];
    } else {
      HeadStable(s, character);
      hide HeadOf, WellFormed;
      var n := HeadOf(s).n;
      assert (s + character)[n..] == s[n..] + character;
      AllWellFormedSnoc(s[n..], character);
    }
  }

  lemma {:induction false} AllWellFormedLeavesNothing(s: seq<byte>)
    requires AllWellFormed(s)
    ensures Stream(s).rest == []
    decreases |s|
  {
    if s != [] {
      StreamStep(s);
      hide HeadOf, WellFormed, ScalarOf, Stream;
      AllWellFormedLeavesNothing(s[HeadOf(s).n..]);
    } else {
      assert Stream(s) == Decoded([], []);
    }
  }

  method FromUtf8(s: seq<byte>) returns (v: Verdict)
    ensures v.AllValid? ==> AllWellFormed(s)
    ensures v.Error? ==> v.validUpTo < |s| && AllWellFormed(s[..v.validUpTo])
    ensures v.Error? ==> HeadOf(s[v.validUpTo..]) ==
                         match v.errorLen case Some(n) => Invalid(n) case None => Incomplete
  {
    hide HeadOf, WellFormed;
    var index := 0;
    while index < |s|
      invariant index <= |s|
      invariant AllWellFormed(s[..index])
    {
      match HeadOf(s[index..]) {
        case Valid(n) =>
          assert s[..index + n] == s[..index] + s[index..][..n];
          AllWellFormedSnoc(s[..index], s[index..][..n]);
          index := index + n;
        case Invalid(n) => return Error(index, Some(n));
        case Incomplete => return Error(index, None);
      }
    }
    assert s[..index] == s;
    return AllValid;
  }

  /** What is done so far, when everything before `mid` has been consumed. */
  lemma StreamSplit(s: seq<byte>, mid: nat)
    requires mid <= |s| && AllWellFormed(s[..mid])
    ensures Stream(s) == After(Stream(s[..mid]).text, Stream(s[mid..]))
  {
    AllWellFormedLeavesNothing(s[..mid]);
    hide AllWellFormed, Stream;
    StreamAppend(s[..mid], s[mid..]);
    assert s[..mid] + s[mid..] == s;
    assert [] + s[mid..] == s[mid..];
  }

  class Utf8Decoder {
    var pending: seq<byte>

    /** Between calls only an unfinished character is held back. */
    ghost predicate Valid()
      reads this
    {
      pending == [] || HeadOf(pending).Incomplete?
    }

    constructor ()
      ensures Valid() && pending == []
    {
      pending := [];
    }

    method Decode(bytes: seq<byte>, eof: bool) returns (text: seq<Scalar>)
      requires Valid()
      modifies this
      ensures Valid() && |pending| <= 3
      ensures eof ==> pending == [] && text == Lossy(old(pending) + bytes)
      ensures !eof ==> Decoded(text, pending) == Stream(old(pending) + bytes)
    {
      hide HeadOf, WellFormed, ScalarOf, Stream, AllWellFormed;
      pending := pending + bytes;
      ghost var whole := pending;
      text := [];
      var consumed := 0;
      assert whole[0..] == whole && [] + Stream(whole).text == Stream(whole).text;
      while consumed < |pending|
        invariant consumed <= |pending| && pending == whole
        invariant Stream(whole) == After(text, Stream(whole[consumed..]))
        decreases |whole| - consumed
      {
        var tail := pending[consumed..];
        var verdict := FromUtf8(tail);
        match verdict
        case AllValid =>
          AllWellFormedLeavesNothing(tail);
          StreamOfNothing(whole[|whole|..]);
          text := text + Stream(tail).text;
          consumed := |pending|;
          assert text + [] == text;
        case Error(validUpTo, errorLen) =>
          StreamSplit(tail, validUpTo);
          var validEnd := consumed + validUpTo;
          assert tail[validUpTo..] == whole[validEnd..];
          StreamStep(whole[validEnd..]);
          ghost var before := text;
          text := text + Stream(tail[..validUpTo]).text;
          assert before + Stream(tail).text == text + Stream(whole[validEnd..]).text;
          consumed := validEnd;
          match errorLen {
            case Some(length) =>
              text := text + [REPLACEMENT];
              consumed := consumed + length;
              assert whole[validEnd..][length..] == whole[consumed..];
            case None =>
              assert text + [] == text;
              if eof {
                text := text + [REPLACEMENT];
                consumed := |pending|;
              }
              break;
          }
      }
      StreamRest(whole);
      if consumed == |whole| {
        StreamOfNothing(whole[consumed..]);
      }
      pending := pending[consumed..];
    }
  }

  // ---------------------------------------------------------------------------------------------
  // Reading a pipe to its end
  // ---------------------------------------------------------------------------------------------

  const OUTPUT_CHUNK := 8192

  /** One `read`: some bytes, the end of the pipe, or an error. */
  datatype Read = Chunk(bytes: seq<byte>) | End | Failed

  datatype Outcome = Finished | ReadFailed | TransportClosed | StillReading

  /** The bytes delivered before the pipe ended or failed. */
  function Delivered(input: seq<Read>): seq<byte> {
    if input == [] || !input[0].Chunk? then [] else input[0].bytes + Delivered(input[1..])
  }

  predicate AllChunks(input: seq<Read>) {
    forall i :: 0 <= i < |input| ==> input[i].Chunk?
  }

  ghost predicate NoEmptyPart<T>(parts: seq<seq<T>>) {
    forall e :: e in parts ==> e != []
  }

  lemma NoEmptyPartSnoc<T>(parts: seq<seq<T>>, last: seq<T>)
    requires NoEmptyPart(parts) && last != []
    ensures NoEmptyPart(parts + [last])
  {
  }

  lemma {:induction false} DeliveredUpTo(input: seq<Read>, k: nat)
    requires k < |input| && AllChunks(input[..k])
    ensures input[k].Chunk? ==> Delivered(input[..k + 1]) == Delivered(input[..k]) + input[k].bytes
    ensures input[k].Chunk? ==> AllChunks(input[..k + 1])
    ensures !input[k].Chunk? ==> Delivered(input) == Delivered(input[..k])
  {
    if k > 0 {
      assert input[1..][..k - 1] == input[..k][1..];
      assert input[1..][..k] == input[..k + 1][1..];
      DeliveredUpTo(input[1..], k - 1);
    } else {
      assert input[..1][1..] == [];
    }
  }

  lemma {:induction false} DeliveredMonotone(input: seq<Read>, k: nat)
    requires k <= |input| && AllChunks(input[..k])
    ensures Delivered(input[..k]) <= Delivered(input)
  {
    if k > 0 {
      assert input[1..][..k - 1] == input[..k][1..];
      DeliveredMonotone(input[1..], k - 1);
    }
  }

  /** Text already emitted is never taken back, whatever arrives later. */
  lemma StreamIsPrefixOfLossy(a: seq<byte>, b: seq<byte>)
    requires a <= b
    ensures Stream(a).text <= Lossy(b)
  {
    StreamAppend(a, b[|a|..]);
    assert a + b[|a|..] == b;
  }

  /**
   Pumps one pipe into output events.  `accepts` is how many events the receiver takes before it
   disappears.  Events carry nonempty text; their concatenation is the one-shot decoding of all
   bytes delivered, however the reads cut them, and at any earlier moment a prefix of it.
   */
  method ReadOutput(input: seq<Read>, accepts: nat) returns (events: seq<seq<Scalar>>, outcome: Outcome)
    requires forall r :: r in input && r.Chunk? ==> 0 < |r.bytes| <= OUTPUT_CHUNK
    ensures NoEmptyPart(events)
    ensures outcome.Finished? ==> Flatten(events) == Lossy(Delivered(input))
    ensures Flatten(events) <= Lossy(Delivered(input))
    ensures outcome.Finished? ==> End in input
    ensures outcome.ReadFailed? ==> Failed in input
    ensures outcome.StillReading? ==> Flatten(events) == Stream(Delivered(input)).text
    ensures |events| <= accepts
  {
    events := [];
    assert input[..0] == [] && AllChunks([]) && NoEmptyPart<Scalar>([]);
    assert Decoded(Flatten(events), []) == Stream(Delivered([]));
    hide *;
    var decoder := new Utf8Decoder();
    var k := 0;
    outcome := StillReading;
    while k < |input| && outcome.StillReading?
      invariant k <= |input| && fresh(decoder) && decoder.Valid()
      invariant AllChunks(input[..k])
      invariant NoEmptyPart(events)
      invariant |events| <= accepts
      invariant outcome.StillReading? ==> Decoded(Flatten(events), decoder.pending) == Stream(Delivered(input[..k]))
      invariant !outcome.StillReading? ==> Flatten(events) <= Lossy(Delivered(input))
      invariant outcome.Finished? ==> Flatten(events) == Lossy(Delivered(input)) && End in input
      invariant outcome.ReadFailed? ==> Failed in input
      decreases |input| - k, outcome.StillReading?
    {
      DeliveredMonotone(input, k);
      StreamIsPrefixOfLossy(Delivered(input[..k]), Delivered(input));
      DeliveredUpTo(input, k);
      if input[k].Failed? {
        outcome := ReadFailed;
      } else {
        var bytes := if input[k].Chunk? then input[k].bytes else [];
        FeedStep(Delivered(input[..k]), Flatten(events), decoder.pending, bytes);
        assert input[k].End? ==> Delivered(input) == Delivered(input[..k]) + bytes;
        var data := decoder.Decode(bytes, input[k].End?);
        FlattenSnoc(events, data);
        if data != [] && |events| == accepts {
          outcome := TransportClosed;
        } else {
          if data != [] {
            NoEmptyPartSnoc(events, data);
            events := events + [data];
          }
          if input[k].End? {
            outcome := Finished;
          } else {
            k := k + 1;
          }
        }
      }
    }
    if outcome.StillReading? {
      assert input[..k] == input;
      StreamIsPrefixOfLossy(Delivered(input), Delivered(input));
    }
  }
}
