/** The base64url encoding of section 5 of RFC 4648, without padding, as a
    Node.js Buffer produces it with `toString("base64url")`. The short codes of
    the registry are this encoding of six random bytes.

    `Encode` is the encoding; `Decode` is its reference inverse, used to show
    that the encoding loses no information (so distinct random draws give
    distinct short codes). */
module Base64Url {

  import opened Wrappers

  /** An octet. */
  type Byte = x: int | 0 <= x < 256

  /** A 6-bit group: the value of one symbol of the encoding. */
  type Sextet = x: int | 0 <= x < 64

  /** The characters of the URL- and filename-safe alphabet: A-Z, a-z, 0-9, '-' and '_'. */
  predicate IsUrlSafe(c: char) {
    ('A' <= c <= 'Z') || ('a' <= c <= 'z') || ('0' <= c <= '9') || c == '-' || c == '_'
  }

  /** The value a symbol of the alphabet stands for (Table 2 of RFC 4648). */
  function ValueOf(c: char): (v: Option<Sextet>)
    ensures v.Some? <==> IsUrlSafe(c)
  {
    if 'A' <= c <= 'Z' then Some(c as int - 'A' as int)
    else if 'a' <= c <= 'z' then Some(c as int - 'a' as int + 26)
    else if '0' <= c <= '9' then Some(c as int - '0' as int + 52)
    else if c == '-' then Some(62)
    else if c == '_' then Some(63)
    else None
  }

  /** The symbol that encodes a 6-bit value (Table 2 of RFC 4648). */
  function Symbol(v: Sextet): (c: char)
    ensures IsUrlSafe(c)
    ensures ValueOf(c) == Some(v)
  {
    if v < 26 then ('A' as int + v) as char
    else if v < 52 then ('a' as int + (v - 26)) as char
    else if v < 62 then ('0' as int + (v - 52)) as char
    else if v == 62 then '-'
    else '_'
  }

  /** Number of symbols for n octets when the padding is left off. */
  function EncodedLength(n: nat): nat {
    4 * (n / 3) + (if n % 3 == 0 then 0 else n % 3 + 1)
  }

  /** Regroups octets into 6-bit groups, most significant bits first; a final
      group of one or two octets is filled with zero bits to a whole sextet. */
  function Sextets(bytes: seq<Byte>): (v: seq<Sextet>)
    ensures |v| == EncodedLength(|bytes|)
    decreases |bytes|
  {
    if |bytes| == 0 then []
    else if |bytes| == 1 then
      [bytes[0] / 4, bytes[0] % 4 * 16]
    else if |bytes| == 2 then
      [bytes[0] / 4, bytes[0] % 4 * 16 + bytes[1] / 16, bytes[1] % 16 * 4]
    else
      Group(bytes[0], bytes[1], bytes[2]) + Sextets(bytes[3..])
  }

  /** The four 6-bit groups of three whole octets. */
  function Group(b0: Byte, b1: Byte, b2: Byte): (v: seq<Sextet>)
    ensures |v| == 4
  {
    [b0 / 4, b0 % 4 * 16 + b1 / 16, b1 % 16 * 4 + b2 / 64, b2 % 64]
  }

  /** Each 6-bit group written as its symbol. */
  function Symbols(v: seq<Sextet>): (s: string)
    ensures |s| == |v|
    ensures forall i :: 0 <= i < |s| ==> s[i] == Symbol(v[i])
    decreases |v|
  {
    if v == [] then "" else [Symbol(v[0])] + Symbols(v[1..])
  }

  /** base64url without padding, one group of three octets after another. */
  function Encode(bytes: seq<Byte>): (s: string)
    ensures |s| == EncodedLength(|bytes|)
    ensures forall i :: 0 <= i < |s| ==> IsUrlSafe(s[i])
    decreases |bytes|
  {
    if |bytes| <= 3 then Symbols(Sextets(bytes)) else Encode(bytes[..3]) + Encode(bytes[3..])
  }

  /** Writing two runs of sextets one after the other writes their symbols one after the other. */
  lemma SymbolsAppend(a: seq<Sextet>, b: seq<Sextet>)
    ensures Symbols(a + b) == Symbols(a) + Symbols(b)
  {
    var s := Symbols(a + b);
    assert forall i :: 0 <= i < |s| ==> s[i] == (Symbols(a) + Symbols(b))[i] by {
      forall i | 0 <= i < |s|
        ensures s[i] == (Symbols(a) + Symbols(b))[i]
      {
        if i < |a| {
          assert (a + b)[i] == a[i];
        } else {
          assert (a + b)[i] == b[i - |a|];
        }
      }
    }
  }

  /** Three octets make exactly one group. */
  lemma SextetsOfOneGroup(bytes: seq<Byte>)
    requires |bytes| == 3
    ensures Sextets(bytes) == Group(bytes[0], bytes[1], bytes[2])
  {
    assert bytes[3..] == [];
    assert Sextets(bytes[3..]) == [];
  }

  /** The encoding is the symbols of all the sextets of the octets. */
  lemma {:induction false} EncodeIsSymbols(bytes: seq<Byte>)
    ensures Encode(bytes) == Symbols(Sextets(bytes))
    decreases |bytes|
  {
    if |bytes| > 3 {
      var head := bytes[..3];
      EncodeIsSymbols(bytes[3..]);
      SextetsOfOneGroup(head);
      assert Group(head[0], head[1], head[2]) == Group(bytes[0], bytes[1], bytes[2]);
      SymbolsAppend(Group(bytes[0], bytes[1], bytes[2]), Sextets(bytes[3..]));
    }
  }

  /** The values of the symbols of s, or None when s holds a character outside the alphabet. */
  function Values(s: string): (r: Option<seq<Sextet>>)
    ensures r.Some? ==> |r.value| == |s|
    decreases |s|
  {
    if s == [] then Some([])
    else match (ValueOf(s[0]), Values(s[1..]))
      case (Some(v), Some(rest)) => Some([v] + rest)
      case _ => None
  }

  /** The octets that consecutive 6-bit groups hold: the first octet of a group
      takes 6 bits of c0 and 2 of c1, the second 4 of c1 and 4 of c2, the third
      2 of c2 and 6 of c3. */
  function FirstOctet(c0: Sextet, c1: Sextet): Byte { c0 * 4 + c1 / 16 }
  function SecondOctet(c1: Sextet, c2: Sextet): Byte { c1 % 16 * 16 + c2 / 4 }
  function ThirdOctet(c2: Sextet, c3: Sextet): Byte { c2 % 4 * 64 + c3 }

  /** Regroups 6-bit groups into octets, dropping the fill bits of a final
      partial group; None for a length that no encoding has (1 modulo 4). */
  function Octets(v: seq<Sextet>): Option<seq<Byte>>
    decreases |v|
  {
    if |v| == 0 then Some([])
    else if |v| == 1 then None
    else if |v| == 2 then Some([FirstOctet(v[0], v[1])])
    else if |v| == 3 then Some([FirstOctet(v[0], v[1]), SecondOctet(v[1], v[2])])
    else match Octets(v[4..])
      case None => None
      case Some(rest) => Some([FirstOctet(v[0], v[1]), SecondOctet(v[1], v[2]), ThirdOctet(v[2], v[3])] + rest)
  }

  /** Reference decoder for unpadded base64url. */
  function Decode(s: string): Option<seq<Byte>> {
    match Values(s)
    case None => None
    case Some(v) => Octets(v)
  }

  /** Reading the symbols back gives the 6-bit groups that were written. */
  lemma {:induction false} ValuesOfSymbols(v: seq<Sextet>)
    ensures Values(Symbols(v)) == Some(v)
    decreases |v|
  {
    if v != [] {
      ValuesOfSymbols(v[1..]);
      assert Symbols(v)[1..] == Symbols(v[1..]);
      assert [v[0]] + v[1..] == v;
    }
  }

  /** One whole group of three octets survives the regrouping into sextets and back. */
  lemma GroupRoundTrip(b0: Byte, b1: Byte, b2: Byte)
    ensures FirstOctet(b0 / 4, b0 % 4 * 16 + b1 / 16) == b0
    ensures SecondOctet(b0 % 4 * 16 + b1 / 16, b1 % 16 * 4 + b2 / 64) == b1
    ensures ThirdOctet(b1 % 16 * 4 + b2 / 64, b2 % 64) == b2
  {
  }

  /** Octets of four sextets followed by more: the group's three octets, then the rest. */
  lemma OctetsOfGroup(c: seq<Sextet>, rest: seq<Sextet>, tail: seq<Byte>)
    requires |c| == 4 && Octets(rest) == Some(tail)
    ensures Octets(c + rest) == Some([FirstOctet(c[0], c[1]), SecondOctet(c[1], c[2]), ThirdOctet(c[2], c[3])] + tail)
  {
    assert (c + rest)[4..] == rest;
  }

  /** A final group of one octet survives the regrouping. */
  lemma OneOctetRoundTrip(b0: Byte)
    ensures Octets(Sextets([b0])) == Some([b0])
  {
    var c: seq<Sextet> := [b0 / 4, b0 % 4 * 16];
    assert Sextets([b0]) == c;
    GroupRoundTrip(b0, 0, 0);
  }

  /** A final group of two octets survives the regrouping. */
  lemma TwoOctetsRoundTrip(b0: Byte, b1: Byte)
    ensures Octets(Sextets([b0, b1])) == Some([b0, b1])
  {
    var c: seq<Sextet> := [b0 / 4, b0 % 4 * 16 + b1 / 16, b1 % 16 * 4];
    assert Sextets([b0, b1]) == c;
    assert Octets(c) == Some([FirstOctet(c[0], c[1]), SecondOctet(c[1], c[2])]);
    GroupRoundTrip(b0, b1, 0);
  }

  /** A whole group of three octets survives the regrouping, whatever follows it. */
  lemma WholeGroupRoundTrip(b0: Byte, b1: Byte, b2: Byte, rest: seq<Sextet>, tail: seq<Byte>)
    requires Octets(rest) == Some(tail)
    ensures Octets(Group(b0, b1, b2) + rest) == Some([b0, b1, b2] + tail)
  {
    var c := Group(b0, b1, b2);
    OctetsOfGroup(c, rest, tail);
    GroupRoundTrip(b0, b1, b2);
  }

  /** Regrouping octets into sextets and back is the identity. */
  lemma {:induction false} OctetsOfSextets(bytes: seq<Byte>)
    ensures Octets(Sextets(bytes)) == Some(bytes)
    decreases |bytes|
  {
    if |bytes| == 1 {
      OneOctetRoundTrip(bytes[0]);
      assert bytes == [bytes[0]];
    } else if |bytes| == 2 {
      TwoOctetsRoundTrip(bytes[0], bytes[1]);
      assert bytes == [bytes[0], bytes[1]];
    } else if |bytes| >= 3 {
      OctetsOfSextets(bytes[3..]);
      WholeGroupRoundTrip(bytes[0], bytes[1], bytes[2], Sextets(bytes[3..]), bytes[3..]);
      assert bytes == [bytes[0], bytes[1], bytes[2]] + bytes[3..];
    }
  }

  /** Decoding an encoding gives back the octets. */
  lemma RoundTrip(bytes: seq<Byte>)
    ensures Decode(Encode(bytes)) == Some(bytes)
  {
    EncodeIsSymbols(bytes);
    ValuesOfSymbols(Sextets(bytes));
    OctetsOfSextets(bytes);
  }

  /** The encoding of one whole group: the symbols of its four sextets. */
  lemma EncodeOneGroup(b0: Byte, b1: Byte, b2: Byte)
    ensures Encode([b0, b1, b2]) == Symbols(Group(b0, b1, b2))
  {
    SextetsOfOneGroup([b0, b1, b2]);
  }

  /** The test vector "foo" of section 10 of RFC 4648: "Zm9v". */
  lemma EncodesFoo()
    ensures Encode([102, 111, 111]) == "Zm9v"
  {
    EncodeOneGroup(102, 111, 111);
    assert 102 / 4 == 25 && 102 % 4 * 16 + 111 / 16 == 38;
    assert 111 % 16 * 4 + 111 / 64 == 61 && 111 % 64 == 47;
    assert Symbols([25, 38, 61, 47]) == "Zm9v";
  }

  /** The test vector "bar" (the second half of "foobar"): "YmFy". */
  lemma EncodesBar()
    ensures Encode([98, 97, 114]) == "YmFy"
  {
    EncodeOneGroup(98, 97, 114);
    assert 98 / 4 == 24 && 98 % 4 * 16 + 97 / 16 == 38;
    assert 97 % 16 * 4 + 114 / 64 == 5 && 114 % 64 == 50;
    assert Symbols([24, 38, 5, 50]) == "YmFy";
  }

  /** The test vector "foobar" of section 10 of RFC 4648, in this alphabet: "Zm9vYmFy". */
  lemma EncodesFoobar()
    ensures Encode([102, 111, 111, 98, 97, 114]) == "Zm9vYmFy"
  {
    var b: seq<Byte> := [102, 111, 111, 98, 97, 114];
    assert b[..3] == [102, 111, 111] && b[3..] == [98, 97, 114];
    EncodesFoo();
    EncodesBar();
  }

  /** The two symbols where this alphabet differs from plain base64: octets
      0xfb 0xff 0xbf encode as "-_-_" (values 62 and 63). */
  lemma EncodesUrlSafeSymbols()
    ensures Encode([0xfb, 0xff, 0xbf]) == "-_-_"
  {
    assert Sextets([0xfb, 0xff, 0xbf]) == [62, 63, 62, 63];
  }

  /** Distinct octet strings have distinct encodings. */
  lemma EncodeInjective(a: seq<Byte>, b: seq<Byte>)
    ensures Encode(a) == Encode(b) ==> a == b
  {
    RoundTrip(a);
    RoundTrip(b);
  }
}
