/** Unpadded base64url (section 5 of RFC 4648) as Go's RawURLEncoding reads it, and big-endian integers. */
module Base64Url {
  import opened Prelude

  type Byte = b: int | 0 <= b < 256
  type Sextet = v: int | 0 <= v < 64

  function Symbol(v: Sextet): char {
    if v < 26 then 'A' + v as char
    else if v < 52 then 'a' + (v - 26) as char
    else if v < 62 then '0' + (v - 52) as char
    else if v == 62 then '-'
    else '_'
  }

  function SextetOf(c: char): Option<Sextet> {
    if 'A' <= c <= 'Z' then Some((c - 'A') as int)
    else if 'a' <= c <= 'z' then Some((c - 'a') as int + 26)
    else if '0' <= c <= '9' then Some((c - '0') as int + 52)
    else if c == '-' then Some(62)
    else if c == '_' then Some(63)
    else None
  }

  function Encode(bytes: seq<Byte>): string
    decreases |bytes|
  {
    if bytes == [] then ""
    else if |bytes| == 1 then
      [Symbol(bytes[0] / 4), Symbol(bytes[0] % 4 * 16)]
    else if |bytes| == 2 then
      [Symbol(bytes[0] / 4), Symbol(bytes[0] % 4 * 16 + bytes[1] / 16), Symbol(bytes[1] % 16 * 4)]
    else
      [Symbol(bytes[0] / 4), Symbol(bytes[0] % 4 * 16 + bytes[1] / 16),
       Symbol(bytes[1] % 16 * 4 + bytes[2] / 64), Symbol(bytes[2] % 64)] + Encode(bytes[3..])
  }

  /** The decoder skips line breaks wherever they stand. */
  function StripNewlines(s: string): string {
    if s == "" then ""
    else (if s[0] == '\r' || s[0] == '\n' then "" else [s[0]]) + StripNewlines(s[1..])
  }

  function Sextets(s: string): Option<seq<Sextet>> {
    if s == "" then Some([])
    else
      match (SextetOf(s[0]), Sextets(s[1..]))
      case (Some(v), Some(rest)) => Some([v] + rest)
      case _ => None
  }

  function Byte0(a: int, b: int): int { a * 4 + b / 16 }

  function Byte1(b: int, c: int): int { b % 16 * 16 + c / 4 }

  function Byte2(c: int, d: int): int { c % 4 * 64 + d }

  /** A lone trailing symbol is an error; bits that no byte claims are ignored. */
  function Bytes(v: seq<Sextet>): Option<seq<Byte>>
    decreases |v|
  {
    if v == [] then Some([])
    else if |v| == 1 then None
    else if |v| == 2 then Some([Byte0(v[0], v[1])])
    else if |v| == 3 then Some([Byte0(v[0], v[1]), Byte1(v[1], v[2])])
    else
      match Bytes(v[4..])
      case None => None
      case Some(rest) => Some([Byte0(v[0], v[1]), Byte1(v[1], v[2]), Byte2(v[2], v[3])] + rest)
  }

  function Decode(s: string): Option<seq<Byte>> {
    match Sextets(StripNewlines(s))
    case None => None
    case Some(v) => Bytes(v)
  }

  lemma SymbolRoundTrip(v: Sextet)
    ensures SextetOf(Symbol(v)) == Some(v) && Symbol(v) != '\r' && Symbol(v) != '\n'
  {
  }

  /** The sextets an encoding spells. */
  function Split(bytes: seq<Byte>): seq<Sextet>
    decreases |bytes|
  {
    if bytes == [] then []
    else if |bytes| == 1 then [bytes[0] / 4, bytes[0] % 4 * 16]
    else if |bytes| == 2 then [bytes[0] / 4, bytes[0] % 4 * 16 + bytes[1] / 16, bytes[1] % 16 * 4]
    else
      [bytes[0] / 4, bytes[0] % 4 * 16 + bytes[1] / 16, bytes[1] % 16 * 4 + bytes[2] / 64, bytes[2] % 64]
      + Split(bytes[3..])
  }

  function Spell(v: seq<Sextet>): string {
    if v == [] then "" else [Symbol(v[0])] + Spell(v[1..])
  }

  lemma {:induction false} SpellAppends(a: seq<Sextet>, b: seq<Sextet>)
    ensures Spell(a + b) == Spell(a) + Spell(b)
    decreases |a|
  {
    if a == [] {
      assert a + b == b;
    } else {
      assert (a + b)[1..] == a[1..] + b;
      SpellAppends(a[1..], b);
    }
  }

  lemma SpellTwo(x: Sextet, y: Sextet)
    ensures Spell([x, y]) == [Symbol(x), Symbol(y)]
  {
    assert [x, y][1..] == [y] && [y][1..] == [];
    assert Spell([y]) == [Symbol(y)];
  }

  lemma {:induction false} EncodeSpells(bytes: seq<Byte>)
    ensures Encode(bytes) == Spell(Split(bytes))
    decreases |bytes|
  {
    var v := Split(bytes);
    if |bytes| == 1 {
      SpellTwo(v[0], v[1]);
    } else if |bytes| == 2 {
      SpellTwo(v[0], v[1]);
      assert [v[2]][1..] == [];
      assert Spell([v[2]]) == [Symbol(v[2])];
      assert v == [v[0], v[1]] + [v[2]];
      SpellAppends([v[0], v[1]], [v[2]]);
    } else if |bytes| > 2 {
      EncodeSpells(bytes[3..]);
      SpellTwo(v[0], v[1]);
      SpellTwo(v[2], v[3]);
      SpellAppends([v[0], v[1]], [v[2], v[3]]);
      assert [v[0], v[1]] + [v[2], v[3]] == [v[0], v[1], v[2], v[3]];
      SpellAppends([v[0], v[1], v[2], v[3]], Split(bytes[3..]));
    }
  }

  lemma {:induction false} SpelledReadsBack(v: seq<Sextet>)
    ensures StripNewlines(Spell(v)) == Spell(v) && Sextets(Spell(v)) == Some(v)
    decreases |v|
  {
    if v != [] {
      SymbolRoundTrip(v[0]);
      SpelledReadsBack(v[1..]);
      assert Spell(v)[1..] == Spell(v[1..]);
      assert v == [v[0]] + v[1..];
    }
  }

  /** Regrouping 8-bit digits as 6-bit digits and back. */
  lemma Regroup(x: Byte, y: Byte, z: Byte)
    ensures Byte0(x / 4, x % 4 * 16 + y / 16) == x
    ensures Byte1(x % 4 * 16 + y / 16, y % 16 * 4 + z / 64) == y
    ensures Byte2(y % 16 * 4 + z / 64, z % 64) == z
  {
  }

  lemma JoinGroup(a: Sextet, b: Sextet, c: Sextet, d: Sextet, tail: seq<Sextet>)
    ensures Bytes([a, b, c, d] + tail)
         == match Bytes(tail)
            case None => None
            case Some(rest) => Some([Byte0(a, b), Byte1(b, c), Byte2(c, d)] + rest)
  {
    assert ([a, b, c, d] + tail)[4..] == tail;
  }

  lemma JoinRegrouped(x: Byte, y: Byte, z: Byte, tail: seq<Sextet>, rest: seq<Byte>)
    requires Bytes(tail) == Some(rest)
    ensures Bytes([x / 4, x % 4 * 16 + y / 16, y % 16 * 4 + z / 64, z % 64] + tail) == Some([x, y, z] + rest)
  {
    Regroup(x, y, z);
    JoinGroup(x / 4, x % 4 * 16 + y / 16, y % 16 * 4 + z / 64, z % 64, tail);
  }

  lemma JoinShort(a: Sextet, b: Sextet, c: Sextet)
    ensures Bytes([a, b]) == Some([Byte0(a, b)])
    ensures Bytes([a, b, c]) == Some([Byte0(a, b), Byte1(b, c)])
  {
  }

  lemma RegroupShort(x: Byte, y: Byte)
    ensures Byte0(x / 4, x % 4 * 16) == x
    ensures Byte0(x / 4, x % 4 * 16 + y / 16) == x
    ensures Byte1(x % 4 * 16 + y / 16, y % 16 * 4) == y
  {
  }

  lemma JoinTail(x: Byte, y: Byte)
    ensures Bytes([x / 4, x % 4 * 16]) == Some([x])
    ensures Bytes([x / 4, x % 4 * 16 + y / 16, y % 16 * 4]) == Some([x, y])
  {
    RegroupShort(x, y);
    JoinShort(x / 4, x % 4 * 16, 0);
    JoinShort(x / 4, x % 4 * 16 + y / 16, y % 16 * 4);
  }

  lemma {:induction false} SplitJoins(bytes: seq<Byte>)
    ensures Bytes(Split(bytes)) == Some(bytes)
    decreases |bytes|
  {
    if |bytes| == 1 {
      JoinTail(bytes[0], 0);
      assert bytes == [bytes[0]];
    } else if |bytes| == 2 {
      JoinTail(bytes[0], bytes[1]);
      assert bytes == [bytes[0], bytes[1]];
    } else if |bytes| > 2 {
      SplitJoins(bytes[3..]);
      JoinRegrouped(bytes[0], bytes[1], bytes[2], Split(bytes[3..]), bytes[3..]);
      assert bytes == [bytes[0], bytes[1], bytes[2]] + bytes[3..];
    }
  }

  /** Decoding undoes encoding, for every byte sequence. */
  lemma EncodingRoundTrips(bytes: seq<Byte>)
    ensures Decode(Encode(bytes)) == Some(bytes)
  {
    EncodeSpells(bytes);
    SpelledReadsBack(Split(bytes));
    SplitJoins(bytes);
  }

  /** The alphabet of section 5 of RFC 4648: A to Z, a to z, 0 to 9, each in turn, then minus and underscore. */
  lemma StandardAlphabet(v: Sextet)
    ensures Symbol(0) == 'A' && Symbol(25) == 'Z' && Symbol(26) == 'a' && Symbol(51) == 'z'
    ensures Symbol(52) == '0' && Symbol(61) == '9' && Symbol(62) == '-' && Symbol(63) == '_'
    ensures v < 61 && v != 25 && v != 51 ==> Symbol(v + 1) == Symbol(v) + 1 as char
  {
  }

  /** The vectors of its section 10 of at most three octets, without the padding. */
  lemma StandardVectors(f: Byte, o: Byte)
    requires f == 'f' as int && o == 'o' as int
    ensures Encode([f]) == "Zg"
    ensures Encode([f, o]) == "Zm8"
    ensures Encode([f, o, o]) == "Zm9v"
  {
    assert Encode([f]) == [Symbol(25), Symbol(32)];
    assert Encode([f, o]) == [Symbol(25), Symbol(38), Symbol(60)];
    var last := Encode([f, o, o][3..]);
    assert last == "";
    assert Encode([f, o, o]) == [Symbol(25), Symbol(38), Symbol(61), Symbol(47)] + last;
    assert [Symbol(25), Symbol(38), Symbol(61), Symbol(47)] + last == "Zm9v";
  }

  lemma {:induction false} SextetsExactly(s: string)
    ensures Sextets(s).Some? <==> forall c :: c in s ==> SextetOf(c).Some?
    ensures Sextets(s).Some? ==> |Sextets(s).value| == |s|
  {
    if s != "" {
      SextetsExactly(s[1..]);
      assert s == [s[0]] + s[1..];
    }
  }

  lemma {:induction false} BytesExactly(v: seq<Sextet>)
    ensures Bytes(v).Some? <==> |v| % 4 != 1
    ensures Bytes(v).Some? ==> |Bytes(v).value| == |v| * 3 / 4
    decreases |v|
  {
    if |v| >= 4 { BytesExactly(v[4..]); }
  }

  lemma {:induction false} StrippedCharacters(s: string)
    ensures forall c :: c in StripNewlines(s) <==> c in s && c != '\r' && c != '\n'
  {
    if s != "" {
      StrippedCharacters(s[1..]);
      assert s == [s[0]] + s[1..];
    }
  }

  /** A text decodes exactly if all its characters but line breaks are of the alphabet and leave no lone symbol. */
  lemma DecodesExactly(s: string)
    ensures Decode(s).Some?
       <==> && (forall c :: c in s ==> c == '\r' || c == '\n' || SextetOf(c).Some?)
            && |StripNewlines(s)| % 4 != 1
    ensures Decode(s).Some? ==> |Decode(s).value| == |StripNewlines(s)| * 3 / 4
  {
    StrippedCharacters(s);
    SextetsExactly(StripNewlines(s));
    if Sextets(StripNewlines(s)).Some? { BytesExactly(Sextets(StripNewlines(s)).value); }
  }

  // ----- Integers -----

  /** big.Int.SetBytes: big-endian, unsigned. */
  function SetBytes(bytes: seq<Byte>): nat
    decreases |bytes|
  {
    if bytes == [] then 0 else SetBytes(bytes[..|bytes| - 1]) * 256 + bytes[|bytes| - 1]
  }

  /** The shortest big-endian octets of a positive integer. */
  function Octets(n: nat): seq<Byte> {
    if n == 0 then [] else Octets(n / 256) + [n % 256]
  }

  /** Base64urlUInt of section 2 of RFC 7518: zero is one zero octet, anything else is shortest. */
  function Base64urlUInt(n: nat): string {
    Encode(if n == 0 then [0] else Octets(n))
  }

  lemma {:induction false} OctetsRoundTrip(n: nat)
    ensures SetBytes(Octets(n)) == n
    ensures n > 0 ==> Octets(n) != [] && Octets(n)[0] != 0
  {
    if n > 0 {
      OctetsRoundTrip(n / 256);
      assert Octets(n)[..|Octets(n)| - 1] == Octets(n / 256);
    }
  }

  lemma UIntRoundTrips(n: nat)
    ensures Decode(Base64urlUInt(n)).Some? && SetBytes(Decode(Base64urlUInt(n)).value) == n
  {
    OctetsRoundTrip(n);
    EncodingRoundTrips(if n == 0 then [0] else Octets(n));
    assert SetBytes([0]) == 0 by { assert [0][..0] == []; }
  }
}
