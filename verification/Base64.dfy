/** The standard base64 alphabet with padding (section 4 of RFC 4648), decoded strictly: padding is
    required and the unused bits of a final group must be zero. */
module Base64 {
  import opened Bytes

  function Symbol(v: nat): char
    requires v < 64
  {
    if v < 26 then (65 + v) as char
    else if v < 52 then (71 + v) as char
    else if v < 62 then (v - 4) as char
    else if v == 62 then '+' else '/'
  }

  function Value(c: char): (r: Option<nat>)
    ensures r.Some? ==> r.value < 64 && Symbol(r.value) == c
    ensures r.None? ==> forall v: nat | v < 64 :: Symbol(v) != c
  {
    if 'A' <= c <= 'Z' then Some(c as nat - 65)
    else if 'a' <= c <= 'z' then Some(c as nat - 71)
    else if '0' <= c <= '9' then Some(c as nat + 4)
    else if c == '+' then Some(62)
    else if c == '/' then Some(63)
    else None
  }

  function Encode(b: seq<byte>): string {
    if |b| == 0 then ""
    else if |b| == 1 then [Symbol(b[0] / 4), Symbol(b[0] % 4 * 16), '=', '=']
    else if |b| == 2 then
      [Symbol(b[0] / 4), Symbol(b[0] % 4 * 16 + b[1] / 16), Symbol(b[1] % 16 * 4), '=']
    else
      [Symbol(b[0] / 4), Symbol(b[0] % 4 * 16 + b[1] / 16), Symbol(b[1] % 16 * 4 + b[2] / 64),
       Symbol(b[2] % 64)] + Encode(b[3..])
  }

  function Decode(s: string): Option<seq<byte>> {
    if s == "" then Some([]) else
    if |s| < 4 then None else
    var (v0, v1, v2, v3) := (Value(s[0]), Value(s[1]), Value(s[2]), Value(s[3]));
    if v0.None? || v1.None? then None else
    var b0: byte := v0.value * 4 + v1.value / 16;
    if s[2] == '=' then
      if |s| == 4 && s[3] == '=' && v1.value % 16 == 0 then Some([b0]) else None
    else if v2.None? then None else
    var b1: byte := v1.value % 16 * 16 + v2.value / 4;
    if s[3] == '=' then
      if |s| == 4 && v2.value % 4 == 0 then Some([b0, b1]) else None
    else if v3.None? then None else
    var b2: byte := v2.value % 4 * 64 + v3.value;
    match Decode(s[4..])
    case None => None
    case Some(rest) => Some([b0, b1, b2] + rest)
  }

  lemma {:induction false} ValueOfSymbol(v: nat)
    requires v < 64
    ensures Value(Symbol(v)) == Some(v) && Symbol(v) != '='
  {
  }

  /** Four six-bit groups carry three bytes without loss. */
  lemma {:induction false} Regroup(b0: byte, b1: byte, b2: byte)
    ensures var (v0, v1, v2, v3) :=
              (b0 / 4, b0 % 4 * 16 + b1 / 16, b1 % 16 * 4 + b2 / 64, b2 % 64);
            && v0 < 64 && v1 < 64 && v2 < 64 && v3 < 64
            && v0 * 4 + v1 / 16 == b0 && v1 % 16 * 16 + v2 / 4 == b1 && v2 % 4 * 64 + v3 == b2
            && (b1 == 0 ==> v1 % 16 == 0) && (b2 == 0 ==> v2 % 4 == 0)
  {
  }

  lemma {:induction false} Ungroup(v0: nat, v1: nat, v2: nat, v3: nat)
    requires v0 < 64 && v1 < 64 && v2 < 64 && v3 < 64
    ensures var (b0, b1, b2) := (v0 * 4 + v1 / 16, v1 % 16 * 16 + v2 / 4, v2 % 4 * 64 + v3);
            && b0 < 256 && b1 < 256 && b2 < 256
            && b0 / 4 == v0 && b0 % 4 * 16 + b1 / 16 == v1
            && b1 % 16 * 4 + b2 / 64 == v2 && b2 % 64 == v3
            && (v1 % 16 == 0 ==> b0 % 4 * 16 == v1) && (v2 % 4 == 0 ==> b1 % 16 * 4 == v2)
  {
  }

  lemma {:induction false} DecodeGroup(v0: nat, v1: nat, v2: nat, v3: nat, t: string)
    requires v0 < 64 && v1 < 64 && v2 < 64 && v3 < 64 && Decode(t).Some?
    ensures Decode([Symbol(v0), Symbol(v1), Symbol(v2), Symbol(v3)] + t)
         == Some([v0 * 4 + v1 / 16, v1 % 16 * 16 + v2 / 4, v2 % 4 * 64 + v3] + Decode(t).value)
  {
    hide Symbol, Value;
    ValueOfSymbol(v0);
    ValueOfSymbol(v1);
    ValueOfSymbol(v2);
    ValueOfSymbol(v3);
    assert ([Symbol(v0), Symbol(v1), Symbol(v2), Symbol(v3)] + t)[4..] == t;
  }

  lemma {:induction false} DecodePadded(v0: nat, v1: nat, v2: nat)
    requires v0 < 64 && v1 < 64 && v2 < 64
    ensures v1 % 16 == 0 ==> Decode([Symbol(v0), Symbol(v1), '=', '=']) == Some([v0 * 4 + v1 / 16])
    ensures v2 % 4 == 0 ==> Decode([Symbol(v0), Symbol(v1), Symbol(v2), '='])
                            == Some([v0 * 4 + v1 / 16, v1 % 16 * 16 + v2 / 4])
  {
    hide Symbol, Value;
    ValueOfSymbol(v0);
    ValueOfSymbol(v1);
    ValueOfSymbol(v2);
  }

  /** Decoding undoes encoding. */
  lemma {:induction false} DecodeEncode(b: seq<byte>)
    ensures Decode(Encode(b)) == Some(b)
  {
    hide Symbol, Decode;
    if b == [] {
      assert Decode("") == Some([]) by { DecodeNothing(); }
    } else {
      var b1 := if |b| > 1 then b[1] else 0;
      var b2 := if |b| > 2 then b[2] else 0;
      var (v0, v1, v2) := (b[0] / 4, b[0] % 4 * 16 + b1 / 16, b1 % 16 * 4 + b2 / 64);
      Regroup(b[0], b1, b2);
      DecodePadded(v0, v1, v2);
      if |b| == 1 {
        assert b == [b[0]];
      } else if |b| == 2 {
        assert b == [b[0], b[1]];
      } else {
        DecodeEncode(b[3..]);
        DecodeGroup(v0, v1, v2, b2 % 64, Encode(b[3..]));
        assert b == [b[0], b[1], b[2]] + b[3..];
      }
    }
  }

  lemma {:induction false} DecodeNothing()
    ensures Decode("") == Some([])
  {
  }

  /** Encoding undoes decoding: a byte string has one encoding only. */
  lemma {:induction false} EncodeDecode(s: string)
    requires Decode(s).Some?
    ensures Encode(Decode(s).value) == s
  {
    hide Symbol, Value;
    if s != "" {
      var v0, v1 := Value(s[0]).value, Value(s[1]).value;
      var v2 := if Value(s[2]).Some? then Value(s[2]).value else 0;
      var v3 := if Value(s[3]).Some? then Value(s[3]).value else 0;
      Ungroup(v0, v1, v2, v3);
      if s[2] == '=' {
        Padded1(s, v0, v1);
      } else if s[3] == '=' {
        Padded2(s, v0, v1, v2);
      } else {
        EncodeDecode(s[4..]);
        Unpadded(s, v0, v1, v2, v3);
      }
    }
  }

  lemma {:induction false} EncodeGroup(b0: byte, b1: byte, b2: byte, rest: seq<byte>)
    ensures Encode([b0, b1, b2] + rest)
         == [Symbol(b0 / 4), Symbol(b0 % 4 * 16 + b1 / 16), Symbol(b1 % 16 * 4 + b2 / 64), Symbol(b2 % 64)] + Encode(rest)
  {
    hide Symbol;
    assert ([b0, b1, b2] + rest)[3..] == rest;
  }

  lemma {:induction false} Unpadded(s: string, v0: nat, v1: nat, v2: nat, v3: nat)
    requires Decode(s).Some? && s != "" && s[2] != '=' && s[3] != '='
    requires Value(s[0]) == Some(v0) && Value(s[1]) == Some(v1) && Value(s[2]) == Some(v2) && Value(s[3]) == Some(v3)
    requires Decode(s[4..]).Some? && Encode(Decode(s[4..]).value) == s[4..]
    ensures Encode(Decode(s).value) == s
  {
    hide Symbol, Value, Encode;
    Ungroup(v0, v1, v2, v3);
    EncodeGroup(v0 * 4 + v1 / 16, v1 % 16 * 16 + v2 / 4, v2 % 4 * 64 + v3, Decode(s[4..]).value);
    assert s == [s[0], s[1], s[2], s[3]] + s[4..];
  }

  lemma {:induction false} Padded1(s: string, v0: nat, v1: nat)
    requires Decode(s).Some? && s != "" && s[2] == '='
    requires Value(s[0]) == Some(v0) && Value(s[1]) == Some(v1)
    ensures Encode(Decode(s).value) == s
  {
    hide Symbol, Value;
    Ungroup(v0, v1, 0, 0);
    assert s == [s[0], s[1], '=', '='];
  }

  lemma {:induction false} Padded2(s: string, v0: nat, v1: nat, v2: nat)
    requires Decode(s).Some? && s != "" && s[2] != '=' && s[3] == '='
    requires Value(s[0]) == Some(v0) && Value(s[1]) == Some(v1) && Value(s[2]) == Some(v2)
    ensures Encode(Decode(s).value) == s
  {
    hide Symbol, Value;
    Ungroup(v0, v1, v2, 0);
    assert s == [s[0], s[1], s[2], '='];
  }

  const UPPER := "ABCDEFGHIJKLMNOPQRSTUVWXYZ"
  const LOWER := "abcdefghijklmnopqrstuvwxyz"
  const ALPHABET := UPPER + LOWER + "0123456789+/"

  predicate At(c: char, place: nat) {
    |ALPHABET| == 64 && place < 64 && ALPHABET[place] == c
  }

  lemma {:induction false} SymbolIs(v: nat)
    requires v < 64
    ensures At(Symbol(v), v)
  {
    hide Symbol;
    assert |UPPER| == 26;
    assert |LOWER| == 26;
    if v < 26 {
      UpperIs(v);
    } else if v < 52 {
      LowerIs(v - 26);
    } else {
      LastIs(v - 52);
    }
  }

  lemma {:induction false} UpperIs(v: nat)
    requires v < 26
    ensures Symbol(v) == UPPER[v]
  {
  }

  lemma {:induction false} LowerIs(v: nat)
    requires v < 26
    ensures Symbol(v + 26) == LOWER[v]
  {
  }

  lemma {:induction false} LastIs(v: nat)
    requires v < 12
    ensures Symbol(v + 52) == "0123456789+/"[v]
  {
  }

  /** The places in the alphabet of the four characters for `n` bytes; those that are padding have none. */
  predicate Places(e: string, n: nat, p0: nat, p1: nat, p2: nat, p3: nat) {
    && |e| == 4 && At(e[0], p0) && At(e[1], p1)
    && (if n < 2 then p2 == 0 && e[2] == '=' else At(e[2], p2))
    && (if n < 3 then p3 == 0 && e[3] == '=' else At(e[3], p3))
  }

  /** Four characters stand for one to three bytes, the first of them highest: the places in the alphabet of all
      that are not padding are the bytes' bits, six by six, filled up with zero bits. */
  ghost predicate Spells(e: string, b: seq<byte>)
    requires 0 < |b| <= 3
  {
    var (b0, b1, b2) := (b[0] as nat, if |b| > 1 then b[1] as nat else 0, if |b| > 2 then b[2] as nat else 0);
    exists p0: nat, p1: nat, p2: nat, p3: nat ::
      && Places(e, |b|, p0, p1, p2, p3)
      && 0x1_0000 * b0 + 0x100 * b1 + b2 == 0x4_0000 * p0 + 0x1000 * p1 + 64 * p2 + p3
  }

  /** The `k`-th group of three bytes, or what there is of it. */
  function GroupAt(b: seq<byte>, k: nat): seq<byte>
    requires 3 * k < |b|
  {
    if 3 * k + 3 <= |b| then b[3 * k..3 * k + 3] else b[3 * k..]
  }

  /** The standard encoding, group by group. */
  lemma {:induction false} EncodeIsStandard(b: seq<byte>)
    ensures |Encode(b)| == (|b| + 2) / 3 * 4
    ensures forall k: nat | 3 * k < |b| :: Spells(Encode(b)[4 * k..4 * k + 4], GroupAt(b, k))
  {
    hide Symbol, Spells, Encode;
    if b == [] {
      NoGroup();
    } else {
      FirstGroup(b);
      var e := Encode(b);
      if |b| > 3 {
        EncodeIsStandard(b[3..]);
      }
      forall k: nat | 3 * k < |b|
        ensures Spells(e[4 * k..4 * k + 4], GroupAt(b, k))
      {
        if k > 0 {
          assert e[4 * k..4 * k + 4] == Encode(b[3..])[4 * (k - 1)..4 * (k - 1) + 4];
          assert GroupAt(b, k) == GroupAt(b[3..], k - 1);
        }
      }
    }
  }

  lemma {:induction false} NoGroup()
    ensures Encode([]) == ""
  {
  }

  lemma {:induction false} FirstGroup(b: seq<byte>)
    requires b != []
    ensures |Encode(b)| >= 4 && Spells(Encode(b)[0..4], GroupAt(b, 0))
    ensures if |b| > 3 then Encode(b)[4..] == Encode(b[3..]) else |Encode(b)| == 4
  {
    hide Symbol, At;
    var b1 := if |b| > 1 then b[1] else 0;
    var b2 := if |b| > 2 then b[2] else 0;
    var (p0, p1, p2, p3) := (b[0] / 4, b[0] % 4 * 16 + b1 / 16, b1 % 16 * 4 + b2 / 64, b2 % 64);
    Regroup(b[0], b1, b2);
    SymbolIs(p0);
    SymbolIs(p1);
    SymbolIs(p2);
    SymbolIs(p3);
    Sextets(b[0], b1, b2);
    var e, g := Encode(b)[0..4], GroupAt(b, 0);
    assert |g| == if |b| < 3 then |b| else 3;
    assert if |b| < 2 then e == [Symbol(p0), Symbol(p1), '=', '='] && p2 == p3 == 0
           else if |b| == 2 then e == [Symbol(p0), Symbol(p1), Symbol(p2), '='] && p3 == 0
           else e == [Symbol(p0), Symbol(p1), Symbol(p2), Symbol(p3)];
    assert Places(e, |g|, p0, p1, p2, p3);
  }

  lemma {:induction false} Sextets(b0: nat, b1: nat, b2: nat)
    ensures 0x1_0000 * b0 + 0x100 * b1 + b2
         == 0x4_0000 * (b0 / 4) + 0x1000 * (b0 % 4 * 16 + b1 / 16) + 64 * (b1 % 16 * 4 + b2 / 64) + b2 % 64
  {
  }

  /** Encoded text has none of the characters that delimit it in a prompt. */
  lemma {:induction false} EncodeIsPlain(b: seq<byte>)
    ensures forall c <- Encode(b) :: c == '=' || Value(c).Some?
    ensures '<' !in Encode(b) && '\n' !in Encode(b) && '"' !in Encode(b)
  {
    if |b| >= 3 {
      EncodeIsPlain(b[3..]);
    }
  }
}
