/**
  ECMAScript's encodeURIComponent (ECMA-262, URI Handling Functions): every character
  outside the unreserved set of section 2.3 of RFC 3986 plus the marks `! * ' ( )` is
  written as the UTF-8 bytes of its code point, each as a `%HH` triplet with upper-case
  hexadecimal digits (section 2.1 of RFC 3986).

  Beside the encoder sits a decoder, used only to state that encoding loses nothing:
  `Decode(Encode(s)) == Some(s)` for every string `s`.
 */
module UriComponent {
  import opened Options

  type Byte = b: int | 0 <= b < 256

  /** The characters encodeURIComponent leaves as they are. */
  predicate IsUnreserved(c: char)
  {
    || ('A' <= c <= 'Z') || ('a' <= c <= 'z') || ('0' <= c <= '9')
    || c == '-' || c == '_' || c == '.' || c == '!' || c == '~' || c == '*'
    || c == '\'' || c == '(' || c == ')'
  }

  predicate IsUpperHex(c: char)
  {
    ('0' <= c <= '9') || ('A' <= c <= 'F')
  }

  predicate IsHex(c: char)
  {
    IsUpperHex(c) || ('a' <= c <= 'f')
  }

  /** The upper-case hexadecimal digit for `n`. */
  function HexDigit(n: nat): (c: char)
    requires n < 16
    ensures IsUpperHex(c)
  {
    if n < 10 then ('0' as int + n) as char else ('A' as int + n - 10) as char
  }

  /** The value of a hexadecimal digit of either case. */
  function HexValue(c: char): (n: nat)
    requires IsHex(c)
    ensures n < 16
    ensures IsUpperHex(c) ==> HexDigit(n) == c
  {
    if '0' <= c <= '9' then c as int - '0' as int
    else if 'A' <= c <= 'F' then c as int - 'A' as int + 10
    else c as int - 'a' as int + 10
  }

  /**
    The number of bytes of the shortest UTF-8 form of code point `cp`: the table of
    section 3 of RFC 3629. Any longer form is overlong and not valid UTF-8.
   */
  function ShortestLength(cp: int): nat
  {
    if cp < 0x80 then 1 else if cp < 0x800 then 2 else if cp < 0x1_0000 then 3 else 4
  }

  /**
    The UTF-8 encoding of one code point (section 3 of RFC 3629). The payload bits are
    peeled off six at a time, so `cp / 64 / 64` is the `cp >> 12` of the usual table.
   */
  function Utf8(c: char): (bs: seq<Byte>)
    ensures |bs| == ShortestLength(c as int)
  {
    var cp := c as int;
    if cp < 0x80 then [cp]
    else if cp < 0x800 then [0xC0 + cp / 64, 0x80 + cp % 64]
    else if cp < 0x1_0000 then [0xE0 + cp / 64 / 64, 0x80 + cp / 64 % 64, 0x80 + cp % 64]
    else [0xF0 + cp / 64 / 64 / 64, 0x80 + cp / 64 / 64 % 64, 0x80 + cp / 64 % 64, 0x80 + cp % 64]
  }

  /** One `%HH` triplet. */
  function Escape(b: Byte): (t: string)
    ensures |t| == 3
  {
    ['%', HexDigit(b / 16), HexDigit(b % 16)]
  }

  function EscapeAll(bs: seq<Byte>): (t: string)
    ensures |t| == 3 * |bs|
  {
    if bs == [] then [] else Escape(bs[0]) + EscapeAll(bs[1..])
  }

  function EncodeChar(c: char): (t: string)
    ensures IsUnreserved(c) ==> t == [c]
    ensures !IsUnreserved(c) ==> |t| >= 3
  {
    if IsUnreserved(c) then [c] else EscapeAll(Utf8(c))
  }

  /** encodeURIComponent: the encodings of the characters, one after the other. */
  function Encode(s: string): (r: string)
    ensures |r| >= |s|
  {
    if s == [] then [] else EncodeChar(s[0]) + Encode(s[1..])
  }

  // ---------------- The shape of an encoded string ----------------

  /** `t` is a run of unreserved characters and `%HH` triplets with upper-case digits. */
  predicate IsEncoded(t: string)
    decreases |t|
  {
    || t == []
    || (IsUnreserved(t[0]) && IsEncoded(t[1..]))
    || (|t| >= 3 && t[0] == '%' && IsUpperHex(t[1]) && IsUpperHex(t[2]) && IsEncoded(t[3..]))
  }

  lemma {:induction false} IsEncodedAppend(a: string, b: string)
    requires IsEncoded(a) && IsEncoded(b)
    ensures IsEncoded(a + b)
    decreases |a|
  {
    if a == [] {
      assert a + b == b;
    } else if IsUnreserved(a[0]) && IsEncoded(a[1..]) {
      IsEncodedAppend(a[1..], b);
      assert (a + b)[1..] == a[1..] + b;
    } else {
      IsEncodedAppend(a[3..], b);
      assert (a + b)[3..] == a[3..] + b;
    }
  }

  lemma {:induction false} EscapeAllIsEncoded(bs: seq<Byte>)
    ensures IsEncoded(EscapeAll(bs))
  {
    if bs != [] {
      EscapeAllIsEncoded(bs[1..]);
      var e := Escape(bs[0]);
      assert e[3..] == [];
      assert IsEncoded(e);
      IsEncodedAppend(e, EscapeAll(bs[1..]));
    }
  }

  /** Whatever the input, the query contains only unreserved characters and `%HH` escapes. */
  lemma {:induction false} EncodeIsEncoded(s: string)
    ensures IsEncoded(Encode(s))
  {
    if s != [] {
      EncodeIsEncoded(s[1..]);
      if IsUnreserved(s[0]) {
        assert EncodeChar(s[0])[1..] == [];
      } else {
        EscapeAllIsEncoded(Utf8(s[0]));
      }
      IsEncodedAppend(EncodeChar(s[0]), Encode(s[1..]));
    }
  }

  /** Encoding leaves a string unchanged exactly when all its characters are unreserved. */
  lemma {:induction false} EncodeUnchangedIff(s: string)
    ensures Encode(s) == s <==> forall i :: 0 <= i < |s| ==> IsUnreserved(s[i])
  {
    if s != [] {
      EncodeUnchangedIff(s[1..]);
      if IsUnreserved(s[0]) {
        assert Encode(s) == [s[0]] + Encode(s[1..]);
        assert s == [s[0]] + s[1..];
        if Encode(s) == s {
          assert Encode(s)[1..] == Encode(s[1..]);
        }
        if forall i :: 0 <= i < |s| ==> IsUnreserved(s[i]) {
          assert forall i :: 0 <= i < |s[1..]| ==> IsUnreserved(s[1..][i]) by {
            forall i | 0 <= i < |s[1..]| ensures IsUnreserved(s[1..][i]) {
              assert s[1..][i] == s[i + 1];
            }
          }
        }
      } else {
        assert |Encode(s)| >= |s| + 2;
      }
    }
  }

  // ---------------- Decoding ----------------

  /** What a percent-decoded character stands for: itself, or one byte of UTF-8. */
  datatype Unit = Literal(c: char) | Octet(b: Byte)

  /** Replaces every `%HH` by the byte it names; fails on a malformed triplet. */
  function PercentDecode(t: string): Option<seq<Unit>>
    decreases |t|
  {
    if t == [] then Some([])
    else if t[0] != '%' then Prepend([Literal(t[0])], PercentDecode(t[1..]))
    else if |t| < 3 || !IsHex(t[1]) || !IsHex(t[2]) then None
    else Prepend([Octet(16 * HexValue(t[1]) + HexValue(t[2]))], PercentDecode(t[3..]))
  }

  /** The length of the UTF-8 sequence a lead byte starts, or 0 for a byte that starts none. */
  function SequenceLength(lead: Byte): nat
  {
    if lead < 0x80 then 1
    else if 0xC0 <= lead < 0xE0 then 2
    else if 0xE0 <= lead < 0xF0 then 3
    else if 0xF0 <= lead < 0xF8 then 4
    else 0
  }

  predicate IsContinuation(u: Unit)
  {
    u.Octet? && 0x80 <= u.b < 0xC0
  }

  /** The code point a well-shaped UTF-8 sequence spells. */
  function CodePoint(us: seq<Unit>): int
    requires 1 <= |us| <= 4 && us[0].Octet?
    requires forall i :: 1 <= i < |us| ==> IsContinuation(us[i])
  {
    var lead := us[0].b;
    if |us| == 1 then lead
    else
      assert IsContinuation(us[1]);
      assert |us| > 2 ==> IsContinuation(us[2]);
      assert |us| > 3 ==> IsContinuation(us[3]);
      if |us| == 2 then (lead - 0xC0) * 64 + (us[1].b - 0x80)
      else if |us| == 3 then ((lead - 0xE0) * 64 + (us[1].b - 0x80)) * 64 + (us[2].b - 0x80)
      else (((lead - 0xF0) * 64 + (us[1].b - 0x80)) * 64 + (us[2].b - 0x80)) * 64 + (us[3].b - 0x80)
  }

  predicate IsScalar(n: int)
  {
    (0 <= n < 0xD800) || (0xE000 <= n < 0x11_0000)
  }

  /** Reassembles characters from literals and shortest-form UTF-8 byte sequences. */
  function Assemble(us: seq<Unit>): Option<string>
    decreases |us|
  {
    if us == [] then Some([])
    else match us[0]
      case Literal(c) => Prepend([c], Assemble(us[1..]))
      case Octet(lead) =>
        var n := SequenceLength(lead);
        if n == 0 || |us| < n || !(forall i :: 1 <= i < n ==> IsContinuation(us[i])) then None
        else
          var cp := CodePoint(us[..n]);
          if IsScalar(cp) && ShortestLength(cp) == n then Prepend([cp as char], Assemble(us[n..]))
          else None
  }

  /**
    The inverse of Encode. Like decodeURIComponent, it copies every character outside
    `%` triplets and rejects overlong UTF-8 forms and surrogates. It yields code points,
    not UTF-16 code units.
   */
  function Decode(t: string): Option<string>
  {
    match PercentDecode(t)
    case None => None
    case Some(us) => Assemble(us)
  }

  // ---------------- The round trip ----------------

  function Octets(bs: seq<Byte>): (us: seq<Unit>)
    ensures |us| == |bs|
    ensures forall i :: 0 <= i < |bs| ==> us[i] == Octet(bs[i])
  {
    if bs == [] then [] else [Octet(bs[0])] + Octets(bs[1..])
  }

  /** What percent-decoding the encoding of `c` yields. */
  function CharUnits(c: char): seq<Unit>
  {
    if IsUnreserved(c) then [Literal(c)] else Octets(Utf8(c))
  }

  function Units(s: string): seq<Unit>
  {
    if s == [] then [] else CharUnits(s[0]) + Units(s[1..])
  }

  lemma PrependPrepend<T>(a: seq<T>, b: seq<T>, r: Option<seq<T>>)
    ensures Prepend(a, Prepend(b, r)) == Prepend(a + b, r)
  {
    match r
    case None =>
    case Some(v) => assert a + (b + v) == (a + b) + v;
  }

  lemma {:induction false} PercentDecodeEscapes(bs: seq<Byte>, t: string)
    ensures PercentDecode(EscapeAll(bs) + t) == Prepend(Octets(bs), PercentDecode(t))
  {
    if bs == [] {
      assert EscapeAll(bs) + t == t;
      match PercentDecode(t)
      case None =>
      case Some(v) => assert Octets(bs) + v == v;
    } else {
      var b := bs[0];
      var x := EscapeAll(bs) + t;
      assert x == Escape(b) + (EscapeAll(bs[1..]) + t);
      assert x[3..] == EscapeAll(bs[1..]) + t;
      assert 16 * HexValue(x[1]) + HexValue(x[2]) == b;
      PercentDecodeEscapes(bs[1..], t);
      PrependPrepend([Octet(b)], Octets(bs[1..]), PercentDecode(t));
      assert Octets(bs) == [Octet(b)] + Octets(bs[1..]);
    }
  }

  lemma {:induction false} PercentDecodeEncode(s: string)
    ensures PercentDecode(Encode(s)) == Some(Units(s))
  {
    if s != [] {
      var c := s[0];
      PercentDecodeEncode(s[1..]);
      if IsUnreserved(c) {
        var x := Encode(s);
        assert x == [c] + Encode(s[1..]);
        assert x[1..] == Encode(s[1..]);
      } else {
        PercentDecodeEscapes(Utf8(c), Encode(s[1..]));
      }
    }
  }

  /** The bytes of Utf8(c) form one sequence that CodePoint reads back as `c`. */
  lemma Utf8Decodes(c: char)
    ensures var us := Octets(Utf8(c));
      && SequenceLength(Utf8(c)[0]) == |us|
      && (forall i :: 1 <= i < |us| ==> IsContinuation(us[i]))
      && CodePoint(us) == c as int
  {
    var cp := c as int;
    var q0, r0 := cp / 64, cp % 64;
    var q1, r1 := q0 / 64, q0 % 64;
    var q2, r2 := q1 / 64, q1 % 64;
    assert cp == q0 * 64 + r0;
    assert q0 == q1 * 64 + r1;
    assert q1 == q2 * 64 + r2;
  }

  lemma AssembleChar(c: char, rest: seq<Unit>)
    ensures Assemble(CharUnits(c) + rest) == Prepend([c], Assemble(rest))
  {
    var us := CharUnits(c) + rest;
    if IsUnreserved(c) {
      assert us[1..] == rest;
    } else {
      var n := |Utf8(c)|;
      Utf8Decodes(c);
      assert us[..n] == Octets(Utf8(c));
      assert us[n..] == rest;
    }
  }

  lemma {:induction false} AssembleUnits(s: string)
    ensures Assemble(Units(s)) == Some(s)
  {
    if s != [] {
      AssembleUnits(s[1..]);
      AssembleChar(s[0], Units(s[1..]));
      assert [s[0]] + s[1..] == s;
    }
  }

  /** Decoding an encoded string gives back the original string. */
  lemma RoundTrip(s: string)
    ensures Decode(Encode(s)) == Some(s)
  {
    PercentDecodeEncode(s);
    AssembleUnits(s);
  }

  /** Different strings have different encodings. */
  lemma EncodeInjective(s: string, s': string)
    requires Encode(s) == Encode(s')
    ensures s == s'
  {
    RoundTrip(s);
    RoundTrip(s');
  }
}
