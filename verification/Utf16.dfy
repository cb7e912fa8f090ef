/** UTF-16LE: the encoding of scalar values, and the code units that the strict encoder takes. */
module Utf16 {
  import opened Bytes
  import opened Utf8

  /** One code unit below 0x10000, a pair of surrogates above, the low byte of a unit first. */
  function Units(v: Scalar): (s: seq<byte>) {
    if v < 0x1_0000 then [v % 0x100, v / 0x100]
    else
      var high, low := 0xD800 + (v - 0x1_0000) / 0x400, 0xDC00 + (v - 0x1_0000) % 0x400;
      [high % 0x100, high / 0x100, low % 0x100, low / 0x100]
  }

  function AllUnits(vs: seq<Scalar>): seq<byte> {
    if vs == [] then [] else Units(vs[0]) + AllUnits(vs[1..])
  }

  /** The encoding of some text. */
  ghost predicate IsText(s: seq<byte>) {
    exists vs :: s == AllUnits(vs)
  }

  /** Every surrogate is half of a pair. */
  predicate Encodable(s: seq<byte>) {
    if |s| < 2 then s == []
    else if 0xD8 <= s[1] < 0xDC then |s| >= 4 && 0xDC <= s[3] < 0xE0 && Encodable(s[4..])
    else !(0xDC <= s[1] < 0xE0) && Encodable(s[2..])
  }

  lemma UnitsThen(v: Scalar, rest: seq<byte>)
    ensures Encodable(Units(v) + rest) <==> Encodable(rest)
  {
    var s := Units(v) + rest;
    if v < 0x1_0000 {
      assert s[1] == v / 0x100 && s[2..] == rest;
    } else {
      assert s[1] == 0xD8 + (v - 0x1_0000) / 0x4_0000 && s[3] == 0xDC + (v - 0x1_0000) % 0x400 / 0x100;
      assert s[4..] == rest;
    }
  }

  lemma {:induction false} TextIsEncodable(vs: seq<Scalar>)
    ensures Encodable(AllUnits(vs))
  {
    if vs != [] {
      UnitsThen(vs[0], AllUnits(vs[1..]));
      TextIsEncodable(vs[1..]);
    }
  }

  /** The scalar value at the front. */
  function Front(s: seq<byte>): Scalar
    requires s != [] && Encodable(s)
  {
    var low: int, high: int := s[0], s[1];
    if 0xD8 <= high < 0xDC then
      var trail: int := (s[3] - 0xDC) as int;
      0x1_0000 + ((high - 0xD8) * 0x100 + low) * 0x400 + trail * 0x100 + s[2]
    else high * 0x100 + low
  }

  lemma FrontUnits(s: seq<byte>)
    requires s != [] && Encodable(s)
    ensures Units(Front(s)) <= s && Encodable(s[|Units(Front(s))|..])
  {
  }

  lemma AllUnitsCons(v: Scalar, vs: seq<Scalar>)
    ensures AllUnits([v] + vs) == Units(v) + AllUnits(vs)
  {
    assert ([v] + vs)[1..] == vs;
  }

  lemma TextThen(v: Scalar, rest: seq<byte>)
    requires IsText(rest)
    ensures IsText(Units(v) + rest)
  {
    hide Units, AllUnits;
    var vs :| rest == AllUnits(vs);
    AllUnitsCons(v, vs);
  }

  lemma {:induction false} EncodableIsText(s: seq<byte>)
    requires Encodable(s)
    ensures IsText(s)
    decreases |s|
  {
    if s == [] {
      assert s == AllUnits([]);
    } else {
      var v := Front(s);
      FrontUnits(s);
      hide Encodable, Units, IsText, Front;
      EncodableIsText(s[|Units(v)|..]);
      TextThen(v, s[|Units(v)|..]);
    }
  }

  /** The strict encoder takes exactly the encodings of texts, characters beyond the first plane included. */
  lemma EncodableExactly(s: seq<byte>)
    ensures Encodable(s) <==> IsText(s)
  {
    hide Encodable, AllUnits;
    if Encodable(s) {
      EncodableIsText(s);
    }
    if IsText(s) {
      var vs :| s == AllUnits(vs);
      TextIsEncodable(vs);
    }
  }
}
