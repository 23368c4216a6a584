/** Base64 as section 4 of RFC 4648 defines it: the buffer-filling encoder and
    decoder, and the string functions built on them. */
module Base64 {
  import opened Text

  type byte = x: int | 0 <= x < 256

  /** The 64 letters, in four rows of sixteen. */
  const ROWS: seq<string> := ["ABCDEFGHIJKLMNOP", "QRSTUVWXYZabcdef", "ghijklmnopqrstuv", "wxyz0123456789+/"]

  const SIZE_MAX: nat := 0xFFFF_FFFF_FFFF_FFFF

  type sextet = x: int | 0 <= x < 64

  function Letter(i: sextet): char {
    ROWS[i / 16][i % 16]
  }

  /** The value of a letter, or -1. */
  function Sextet(c: char): (v: int)
    ensures -1 <= v < 64
  {
    if 'A' <= c <= 'Z' then c as int - 'A' as int
    else if 'a' <= c <= 'z' then c as int - 'a' as int + 26
    else if '0' <= c <= '9' then c as int - '0' as int + 52
    else if c == '+' then 62
    else if c == '/' then 63
    else -1
  }

  /** The alphabet by ranges. */
  function Ranged(i: sextet): char {
    if i < 26 then ('A' as int + i) as char
    else if i < 52 then ('a' as int + i - 26) as char
    else if i < 62 then ('0' as int + i - 52) as char
    else if i == 62 then '+' else '/'
  }

  lemma AlphabetRanged(i: sextet)
    ensures Letter(i) == Ranged(i)
  {
    var row := ROWS[i / 16];
    match i % 16
    case 0 => case 1 => case 2 => case 3 => case 4 => case 5 => case 6 => case 7 =>
    case 8 => case 9 => case 10 => case 11 => case 12 => case 13 => case 14 => case 15 =>
  }

  lemma SextetLetter(i: sextet)
    ensures Sextet(Letter(i)) == i
    ensures Letter(i) != '=' && Letter(i) != '\0' && Letter(i) !in {'\n', '\r', ' ', '\t'}
  {
    AlphabetRanged(i);
  }

  lemma LetterSextet(c: char)
    requires Sextet(c) >= 0
    ensures Letter(Sextet(c)) == c
  {
    AlphabetRanged(Sextet(c));
  }

  // ---- encoding ------------------------------------------------------------------------------

  /** Three bytes as one 24-bit number, and its four sextets. */
  function Group(a: byte, b: byte, c: byte): nat {
    a * 0x1_0000 + b * 0x100 + c
  }

  function Bits(v: nat, shift: nat): sextet
    requires shift > 0
  {
    v / shift % 64
  }

  /** A shift and a mask by constants, as a quotient and a remainder. */
  lemma BitsAre(v: nat, shift: nat, high: nat, bits: sextet, low: nat)
    requires shift == 0x4_0000 || shift == 0x1000 || shift == 0x40 || shift == 1
    requires v == (high * 64 + bits) * shift + low && low < shift
    ensures Bits(v, shift) == bits
  {
    if shift == 0x4_0000 {
      assert v / 0x4_0000 == high * 64 + bits;
    } else if shift == 0x1000 {
      assert v / 0x1000 == high * 64 + bits;
    } else if shift == 0x40 {
      assert v / 0x40 == high * 64 + bits;
    }
  }

  lemma GroupBits(a: byte, b: byte, c: byte)
    ensures var v := Group(a, b, c);
      && Bits(v, 0x4_0000) == a / 4
      && Bits(v, 0x1000) == a % 4 * 16 + b / 16
      && Bits(v, 0x40) == b % 16 * 4 + c / 64
      && Bits(v, 1) == c % 64
  {
    hide Bits;
    var v := Group(a, b, c);
    BitsAre(v, 0x4_0000, 0, a / 4, a % 4 * 0x1_0000 + b * 0x100 + c);
    BitsAre(v, 0x1000, a / 4, a % 4 * 16 + b / 16, b % 16 * 0x100 + c);
    BitsAre(v, 0x40, a * 16 + b / 16, b % 16 * 4 + c / 64, c % 64);
    BitsAre(v, 1, a * 1024 + b * 4 + c / 64, c % 64, 0);
  }

  function Quad(v: nat): (s: string)
    ensures |s| == 4
  {
    [Letter(Bits(v, 0x4_0000)), Letter(Bits(v, 0x1000)), Letter(Bits(v, 0x40)), Letter(Bits(v, 1))]
  }

  /** The last one to three bytes, padded to four characters. */
  function Tail(b: seq<byte>): (s: string)
    requires 1 <= |b| <= 3
    ensures |s| == 4
  {
    if |b| == 1 then Quad(Group(b[0], 0, 0))[..2] + "=="
    else if |b| == 2 then Quad(Group(b[0], b[1], 0))[..3] + "="
    else Quad(Group(b[0], b[1], b[2]))
  }

  function Encode(b: seq<byte>): string {
    if b == [] then "" else if |b| <= 3 then Tail(b) else Tail(b[..3]) + Encode(b[3..])
  }

  function EncodedLength(n: nat): nat {
    (n + 2) / 3 * 4
  }

  lemma {:induction false} EncodeLength(b: seq<byte>)
    ensures |Encode(b)| == EncodedLength(|b|)
    decreases |b|
  {
    hide Tail;
    if |b| <= 3 {
    } else {
      EncodeLength(b[3..]);
    }
  }

  // ---- decoding ------------------------------------------------------------------------------

  predicate Pad(c: char) {
    c == '=' || c == '\0'
  }

  /** The bytes four sextets hold. */
  function Triple(v: seq<sextet>): (t: seq<byte>)
    requires |v| == 4
    ensures |t| == 3
  {
    var v0: int, v1: int, v2: int, v3: int := v[0], v[1], v[2], v[3];
    [v0 * 4 + v1 / 16, v1 % 16 * 16 + v2 / 4, v2 % 4 * 64 + v3]
  }

  /** A quantum of letters. */
  predicate Letters(q: string) {
    forall i :: 0 <= i < |q| ==> Sextet(q[i]) >= 0
  }

  /** The final quantum may also hold padding, anywhere. */
  predicate Final(q: string) {
    forall i :: 0 <= i < |q| ==> Pad(q[i]) || Sextet(q[i]) >= 0
  }

  function Value(c: char): sextet {
    if Pad(c) || Sextet(c) < 0 then 0 else Sextet(c)
  }

  function Values(q: string): (v: seq<sextet>)
    requires |q| == 4
    ensures |v| == 4
  {
    [Value(q[0]), Value(q[1]), Value(q[2]), Value(q[3])]
  }

  /** Position of the first padding character of a quantum, or 4. */
  function FirstPad(q: string): nat
    requires |q| == 4
  {
    if Pad(q[0]) then 0 else if Pad(q[1]) then 1 else if Pad(q[2]) then 2 else if Pad(q[3]) then 3 else 4
  }

  /** Bytes the final quantum stands for: one less for each character from the
      first padding on, and never less than none. */
  function Kept(q: string): nat
    requires |q| == 4
  {
    if FirstPad(q) == 4 then 3 else if FirstPad(q) == 3 then 2 else if FirstPad(q) == 2 then 1 else 0
  }

  predicate WholeQuanta(s: string) {
    s != "" && |s| % 4 == 0
  }

  function Decode(s: string): Option<seq<byte>>
    decreases |s|
  {
    if !WholeQuanta(s) then None
    else if |s| == 4 then (if Final(s) then Some(Triple(Values(s))[..Kept(s)]) else None)
    else if !Letters(s[..4]) then None
    else
      var rest := Decode(s[4..]);
      if rest.None? then None else Some(Triple(Values(s[..4])) + rest.value)
  }

  /** What the size query answers, without looking at any character but the last four. */
  function DecodedSize(s: string): nat {
    if !WholeQuanta(s) then 0 else |s| / 4 * 3 - 3 + Kept(s[|s| - 4..])
  }

  /** A successful decode produces exactly the size the query reported. */
  lemma {:induction false} DecodeSize(s: string)
    requires Decode(s).Some?
    ensures |Decode(s).value| == DecodedSize(s)
    decreases |s|
  {
    if |s| > 4 {
      DecodeSize(s[4..]);
      assert s[4..][|s| - 8..] == s[|s| - 4..];
    } else {
      assert s[0..] == s;
    }
  }

  // ---- round trips --------------------------------------------------------------------------------

  lemma ValueLetter(i: sextet)
    ensures Value(Letter(i)) == i && !Pad(Letter(i)) && Sextet(Letter(i)) >= 0
  {
    SextetLetter(i);
  }

  lemma QuadValues(v: nat)
    ensures Values(Quad(v)) == [Bits(v, 0x4_0000), Bits(v, 0x1000), Bits(v, 0x40), Bits(v, 1)]
    ensures Letters(Quad(v)) && forall i :: 0 <= i < 4 ==> !Pad(Quad(v)[i])
  {
    ValueLetter(Bits(v, 0x4_0000));
    ValueLetter(Bits(v, 0x1000));
    ValueLetter(Bits(v, 0x40));
    ValueLetter(Bits(v, 1));
  }

  lemma DecodeQuantum(s: string)
    requires |s| == 4
    ensures Decode(s) == if Final(s) then Some(Triple(Values(s))[..Kept(s)]) else None
  {
    hide Final, Triple, Values, Kept;
  }

  lemma HighAndLow(x: int, y: int, n: int, m: int)
    requires (n == 4 && m == 16) || (n == 16 && m == 4) || (n == 64 && m == 1)
    requires 0 <= x < 256 && 0 <= y < m
    ensures (x % n * m + y) / m == x % n && x / n * n + x % n == x && (x % n * m + y) % m == y
  {
  }

  /** Three bytes, cut into sextets and put together again. */
  lemma TripleBack(a: byte, b: byte, c: byte)
    ensures Triple([a / 4, a % 4 * 16 + b / 16, b % 16 * 4 + c / 64, c % 64]) == [a, b, c]
  {
    HighAndLow(a, b / 16, 4, 16);
    HighAndLow(b, c / 64, 16, 4);
    HighAndLow(c, 0, 64, 1);
  }

  /** The values of the quantum of three bytes. */
  lemma QuadOf(a: byte, b: byte, c: byte)
    ensures var q := Quad(Group(a, b, c));
            && Letters(q) && (forall i :: 0 <= i < 4 ==> !Pad(q[i]))
            && Values(q) == [a / 4, a % 4 * 16 + b / 16, b % 16 * 4 + c / 64, c % 64]
            && Triple(Values(q)) == [a, b, c]
  {
    hide Quad, Bits, Group, Letters, Values, Triple;
    QuadValues(Group(a, b, c));
    GroupBits(a, b, c);
    TripleBack(a, b, c);
  }

  lemma TripleDecodes(b: seq<byte>)
    requires |b| == 3
    ensures Letters(Tail(b)) && Triple(Values(Tail(b))) == b && Decode(Tail(b)) == Some(b)
  {
    hide Quad, Group, Decode, Letters, Values, Kept, Final, Triple;
    var q := Quad(Group(b[0], b[1], b[2]));
    QuadOf(b[0], b[1], b[2]);
    DecodeQuantum(q);
    NothingPadded(q);
    assert b == [b[0], b[1], b[2]] && b[..3] == b;
  }

  lemma NothingPadded(q: string)
    requires |q| == 4 && Letters(q) && forall i :: 0 <= i < 4 ==> !Pad(q[i])
    ensures Final(q) && Kept(q) == 3
  {
  }

  /** Padding stands for zero bits, so a padded quantum has the values of the unpadded one. */
  lemma Padded(q: string, n: nat)
    requires |q| == 4 && Letters(q) && (n == 2 || n == 3) && forall i :: 0 <= i < 4 ==> !Pad(q[i])
    requires forall i :: n <= i < 4 ==> Value(q[i]) == 0
    ensures var t := q[..n] + if n == 2 then "==" else "=";
            Values(t) == Values(q) && Final(t) && Kept(t) == n - 1
  {
    hide Sextet;
    var t := q[..n] + if n == 2 then "==" else "=";
    assert t[0] == q[0] && t[1] == q[1] && (n == 3 ==> t[2] == q[2]) && t[3] == '=';
    assert t[2] == if n == 2 then '=' else q[2];
  }

  lemma PairDecodes(b: seq<byte>)
    requires |b| == 2
    ensures Decode(Tail(b)) == Some(b)
  {
    hide Quad, Group, Decode, Letters, Kept, Final, Triple;
    var q := Quad(Group(b[0], b[1], 0));
    QuadOf(b[0], b[1], 0);
    assert Value(q[3]) == Values(q)[3] == 0;
    Padded(q, 3);
    DecodeQuantum(Tail(b));
    assert [b[0], b[1], 0][..2] == b;
  }

  lemma SingleDecodes(b: seq<byte>)
    requires |b| == 1
    ensures Decode(Tail(b)) == Some(b)
  {
    hide Quad, Group, Decode, Letters, Kept, Final, Triple;
    var q := Quad(Group(b[0], 0, 0));
    QuadOf(b[0], 0, 0);
    assert Value(q[3]) == Values(q)[3] == 0 && Value(q[2]) == Values(q)[2] == 0;
    Padded(q, 2);
    DecodeQuantum(Tail(b));
    assert [b[0], 0, 0][..1] == b;
  }

  lemma {:induction false} TailDecodes(b: seq<byte>)
    requires 1 <= |b| <= 3
    ensures Decode(Tail(b)) == Some(b)
    ensures |b| == 3 ==> Letters(Tail(b)) && Triple(Values(Tail(b))) == b
  {
    hide Tail, Decode, Triple, Values, Letters;
    if |b| == 1 {
      SingleDecodes(b);
    } else if |b| == 2 {
      PairDecodes(b);
    } else {
      TripleDecodes(b);
    }
  }

  /** Decoding what was encoded gives it back. */
  lemma {:induction false} DecodeEncode(b: seq<byte>)
    requires b != []
    ensures Decode(Encode(b)) == Some(b)
    decreases |b|
  {
    hide Tail, Triple, Values, Letters, Final, Kept;
    if |b| <= 3 {
      TailDecodes(b);
    } else {
      TailDecodes(b[..3]);
      DecodeEncode(b[3..]);
      EncodeLength(b[3..]);
      var s := Encode(b);
      assert s[..4] == Tail(b[..3]) && s[4..] == Encode(b[3..]);
      assert b == b[..3] + b[3..];
    }
  }

  /** Sections 3.5 and 4 of RFC 4648: letters, at most two padding characters at
      the very end, and no stray bits under them. */
  predicate Canonical(s: string)
    decreases |s|
  {
    if !WholeQuanta(s) then false
    else if |s| > 4 then Letters(s[..4]) && Canonical(s[4..])
    else
      || Letters(s)
      || (Letters(s[..3]) && s[3] == '=' && Sextet(s[2]) % 4 == 0)
      || (Letters(s[..2]) && s[2] == '=' && s[3] == '=' && Sextet(s[1]) % 16 == 0)
  }

  lemma TripleBits(v: seq<sextet>)
    requires |v| == 4
    ensures var t := Triple(v); var g := Group(t[0], t[1], t[2]);
      Bits(g, 0x4_0000) == v[0] && Bits(g, 0x1000) == v[1] && Bits(g, 0x40) == v[2] && Bits(g, 1) == v[3]
  {
    var t := Triple(v);
    GroupBits(t[0], t[1], t[2]);
  }

  lemma LettersBack(q: string)
    requires |q| == 4 && Letters(q)
    ensures var t := Triple(Values(q)); Quad(Group(t[0], t[1], t[2])) == q
  {
    TripleBits(Values(q));
    LetterBack(q[0]);
    LetterBack(q[1]);
    LetterBack(q[2]);
    LetterBack(q[3]);
  }

  lemma LetterBack(c: char)
    requires Sextet(c) >= 0
    ensures Letter(Value(c)) == c && !Pad(c)
  {
    LetterSextet(c);
  }

  /** The final quantum of a canonical text is what its bytes encode to. */
  lemma {:induction false} FinalBack(q: string)
    requires |q| == 4 && Canonical(q)
    ensures Decode(q).Some? && 1 <= |Decode(q).value| <= 3 && Tail(Decode(q).value) == q
  {
    hide Bits, Group, Letter;
    var v := Values(q);
    var t := Triple(v);
    TripleBits(v);
    LetterBack(q[0]);
    LetterBack(q[1]);
    var b := t[..Kept(q)];
    if Letters(q) {
      LetterBack(q[2]);
      LetterBack(q[3]);
      LettersBack(q);
    } else if Letters(q[..3]) && q[3] == '=' && Sextet(q[2]) % 4 == 0 {
      assert q[..3][2] == q[2];
      LetterBack(q[2]);
      assert t[2] == 0;
      assert b == [t[0], t[1]];
    } else {
      assert t[1] == 0 && t[2] == 0;
      assert b == [t[0]];
    }
  }

  /** Encoding the decode of a canonical text returns that text. */
  lemma {:induction false} EncodeDecode(s: string)
    requires Canonical(s)
    ensures Decode(s).Some? && Encode(Decode(s).value) == s
    decreases |s|
  {
    hide Tail, Triple, Values, Letter, Letters, Kept;
    if |s| == 4 {
      FinalBack(s);
    } else {
      var q := s[..4];
      QuantumCanonical(q);
      FinalBack(q);
      EncodeDecode(s[4..]);
      assert s == q + s[4..];
      var t, rest := Triple(Values(q)), Decode(s[4..]).value;
      assert rest != [];
      assert (t + rest)[..3] == t && (t + rest)[3..] == rest;
      LettersDecode(q);
    }
  }

  lemma QuantumCanonical(q: string)
    requires |q| == 4 && Letters(q)
    ensures Canonical(q)
  {
  }

  lemma LettersDecode(q: string)
    requires |q| == 4 && Letters(q)
    ensures Decode(q) == Some(Triple(Values(q)))
  {
    hide Triple, Values, Letter;
    var t := Triple(Values(q));
    assert t[..3] == t;
    LetterBack(q[0]);
    LetterBack(q[1]);
    LetterBack(q[2]);
    LetterBack(q[3]);
  }

  lemma {:induction false} TailCanonical(b: seq<byte>)
    requires 1 <= |b| <= 3
    ensures Canonical(Tail(b)) && (|b| == 3 ==> Letters(Tail(b)))
  {
    hide Bits, Group, Letter;
    var b1: byte := if |b| > 1 then b[1] else 0;
    var b2: byte := if |b| > 2 then b[2] else 0;
    var v := Group(b[0], b1, b2);
    QuadValues(v);
    GroupBits(b[0], b1, b2);
    SextetLetter(Bits(v, 0x1000));
    SextetLetter(Bits(v, 0x40));
  }

  lemma {:induction false} EncodeCanonical(b: seq<byte>)
    requires b != []
    ensures Canonical(Encode(b))
    decreases |b|
  {
    hide Tail, Letters;
    if |b| <= 3 {
      TailCanonical(b);
    } else {
      TailCanonical(b[..3]);
      EncodeCanonical(b[3..]);
      EncodeLength(b[3..]);
      var s := Encode(b);
      assert s[..4] == Tail(b[..3]) && s[4..] == Encode(b[3..]);
    }
  }

  /** The texts that survive decoding and encoding are exactly the canonical ones. */
  lemma {:induction false} CanonicalIff(s: string)
    requires s != ""
    ensures Canonical(s) <==> Decode(s).Some? && Encode(Decode(s).value) == s
  {
    hide Encode, Decode, Canonical;
    if Canonical(s) {
      EncodeDecode(s);
    } else if Decode(s).Some? && Encode(Decode(s).value) == s {
      EncodeNothing();
      EncodeCanonical(Decode(s).value);
    }
  }

  lemma EncodeNothing()
    ensures Encode([]) == ""
  {
  }

  // ---- the buffer functions -------------------------------------------------------------------------

  /** How the encoding of what is left starts. */
  lemma {:induction false} EncodeStep(src: seq<byte>, i: nat)
    requires i <= |src|
    ensures i == |src| ==> Encode(src[i..]) == ""
    ensures i + 3 <= |src| ==> Encode(src[i..]) == Quad(Group(src[i], src[i + 1], src[i + 2])) + Encode(src[i + 3..])
    ensures i + 1 == |src| ==> Encode(src[i..]) == Quad(Group(src[i], 0, 0))[..2] + "=="
    ensures i + 2 == |src| ==> Encode(src[i..]) == Quad(Group(src[i], src[i + 1], 0))[..3] + "="
  {
    hide Quad, Group;
    var b := src[i..];
    if |b| >= 3 {
      assert b[..3] == [src[i], src[i + 1], src[i + 2]];
      assert b[3..] == src[i + 3..];
    }
  }

  /** Four characters at a time. */
  method Put(dest: array<char>, out: nat, q: string)
    requires |q| == 4 && out + 4 <= dest.Length
    modifies dest
    ensures dest[..out] == old(dest[..out])
    ensures dest[..out + 4] == old(dest[..out]) + q
    ensures dest[out + 4..] == old(dest[out + 4..])
  {
    dest[out], dest[out + 1], dest[out + 2], dest[out + 3] := q[0], q[1], q[2], q[3];
  }

  /** Three source bytes go out as one quantum. */
  method EncodeRound(src: seq<byte>, dest: array<char>, c: nat)
    requires 3 * c + 3 <= |src| && 4 * c + 4 <= dest.Length
    requires Encode(src) == dest[..4 * c] + Encode(src[3 * c..])
    modifies dest
    ensures Encode(src) == dest[..4 * c + 4] + Encode(src[3 * c + 3..])
    ensures dest[4 * c + 4..] == old(dest[4 * c + 4..])
  {
    hide Encode, Quad, Group;
    EncodeStep(src, 3 * c);
    Put(dest, 4 * c, Quad(Group(src[3 * c], src[3 * c + 1], src[3 * c + 2])));
  }

  /** The one or two bytes left over go out padded. */
  method EncodeRest(src: seq<byte>, dest: array<char>, c: nat)
    requires 3 * c <= |src| < 3 * c + 3 && |Encode(src)| <= dest.Length
    requires 4 * c <= dest.Length && Encode(src) == dest[..4 * c] + Encode(src[3 * c..])
    modifies dest
    ensures dest[..|Encode(src)|] == Encode(src)
    ensures dest[|Encode(src)|..] == old(dest[|Encode(src)|..])
  {
    hide Encode, Quad, Group;
    EncodeStep(src, 3 * c);
    var rem := |src| - 3 * c;
    if rem == 1 {
      Put(dest, 4 * c, Quad(Group(src[3 * c], 0, 0))[..2] + "==");
    } else if rem == 2 {
      Put(dest, 4 * c, Quad(Group(src[3 * c], src[3 * c + 1], 0))[..3] + "=");
    }
  }

  method EncodeAll(src: seq<byte>, dest: array<char>)
    requires |Encode(src)| <= dest.Length
    modifies dest
    ensures dest[..|Encode(src)|] == Encode(src)
    ensures dest[|Encode(src)|..] == old(dest[|Encode(src)|..])
  {
    hide Encode;
    EncodeLength(src);
    ghost var size := |Encode(src)|;
    assert src[0..] == src && dest[..0] == [];
    var c := 0;
    while 3 * c + 3 <= |src|
      invariant 3 * c <= |src| && 4 * c <= size
      invariant Encode(src) == dest[..4 * c] + Encode(src[3 * c..])
      invariant dest[size..] == old(dest[size..])
      decreases |src| - 3 * c
    {
      ghost var before := dest[..];
      EncodeRound(src, dest, c);
      LaterTail(before, dest[..], 4 * c + 4, size);
      c := c + 1;
    }
    EncodeRest(src, dest, c);
  }

  /** Fill a caller-supplied buffer; a null buffer asks for the size needed. */
  method EncodeInto(src: seq<byte>, dest: array?<char>, destLen: nat) returns (n: nat)
    requires dest != null ==> destLen <= dest.Length
    modifies dest
    ensures |src| > SIZE_MAX / 2 ==> n == 0
    ensures |src| <= SIZE_MAX / 2 && (dest == null || destLen >= |Encode(src)|) ==> n == |Encode(src)|
    ensures |src| <= SIZE_MAX / 2 && dest != null && destLen < |Encode(src)| ==> n == 0
    ensures dest != null ==> n <= dest.Length && (n > 0 ==> dest[..n] == Encode(src))
    ensures dest != null ==> dest[n..] == old(dest[n..])
  {
    hide Encode;
    n := 0;
    if |src| > SIZE_MAX / 2 {
      return;
    }
    EncodeLength(src);
    var outLen := (|src| + 2) / 3 * 4;
    if dest == null {
      return outLen;
    }
    if destLen < outLen {
      return;
    }
    EncodeAll(src, dest);
    n := outLen;
  }

  /** The values of one quantum; only the last may hold padding, which counts as zero bits. */
  method ReadQuantum(q: string, isLast: bool) returns (ok: bool, v: seq<sextet>)
    requires |q| == 4
    ensures ok <==> if isLast then Final(q) else Letters(q)
    ensures ok ==> v == Values(q)
  {
    v := [];
    for k := 0 to 4
      invariant |v| == k
      invariant forall i :: 0 <= i < k ==> v[i] == Value(q[i]) && (Sextet(q[i]) >= 0 || (isLast && Pad(q[i])))
    {
      var ch := q[k];
      var s := Sextet(ch);
      if isLast && Pad(ch) {
        v := v + [0];
      } else {
        if s < 0 {
          return false, v;
        }
        NotPad(ch);
        v := v + [s];
      }
    }
    return true, v;
  }

  lemma NotPad(c: char)
    requires Sextet(c) >= 0
    ensures !Pad(c)
  {
  }

  method Emit(dest: array<byte>, produced: nat, triple: seq<byte>, emit: nat)
    requires |triple| == 3 && emit <= 3 && produced + emit <= dest.Length
    modifies dest
    ensures dest[..produced + emit] == old(dest[..produced]) + triple[..emit]
    ensures dest[produced + emit..] == old(dest[produced + emit..])
  {
    for k := 0 to emit
      invariant dest[..produced + k] == old(dest[..produced]) + triple[..k]
      invariant dest[produced + emit..] == old(dest[produced + emit..])
    {
      ghost var done := dest[..produced + k];
      dest[produced + k] := triple[k];
      assert dest[..produced + k] == done;
      assert dest[..produced + k + 1] == done + [triple[k]];
    }
  }

  function Prepend(b: seq<byte>, r: Option<seq<byte>>): Option<seq<byte>> {
    if r.None? then None else Some(b + r.value)
  }

  /** How decoding what is left goes on. */
  lemma {:induction false} DecodeStep(src: string, at: nat)
    requires at + 4 <= |src| && |src| % 4 == 0 && at % 4 == 0
    ensures var q := src[at..at + 4];
      Decode(src[at..]) ==
        if at + 4 == |src| then (if Final(q) then Some(Triple(Values(q))[..Kept(q)]) else None)
        else if !Letters(q) then None
        else Prepend(Triple(Values(q)), Decode(src[at + 4..]))
  {
    hide Triple, Values, Final, Letters, Kept;
    var s, q := src[at..], src[at..at + 4];
    assert s[..4] == q && s[4..] == src[at + 4..];
    if at + 4 == |src| {
      assert s == q;
    }
  }

  lemma PrependTwice(a: seq<byte>, b: seq<byte>, r: Option<seq<byte>>)
    ensures Prepend(a, Prepend(b, r)) == Prepend(a + b, r)
  {
    if r.Some? {
      assert a + (b + r.value) == a + b + r.value;
    }
  }

  /** One quantum that is not the last: its three bytes go behind what is written. */
  method DecodeRound(src: string, dest: array<byte>, c: nat) returns (ok: bool)
    requires |src| % 4 == 0 && 4 * c + 4 < |src| && 3 * c + 3 <= dest.Length
    requires Decode(src) == Prepend(dest[..3 * c], Decode(src[4 * c..]))
    modifies dest
    ensures ok ==> Decode(src) == Prepend(dest[..3 * c + 3], Decode(src[4 * c + 4..]))
    ensures !ok ==> Decode(src).None?
    ensures dest[3 * c + 3..] == old(dest[3 * c + 3..])
  {
    hide Triple, Values, Final, Letters, Kept, Decode;
    var q := src[4 * c..4 * c + 4];
    DecodeStep(src, 4 * c);
    var v;
    ok, v := ReadQuantum(q, false);
    if !ok {
      return;
    }
    var triple := Triple(v);
    ghost var done := dest[..3 * c];
    Emit(dest, 3 * c, triple, 3);
    assert triple[..3] == triple;
    PrependTwice(done, triple, Decode(src[4 * c + 4..]));
  }

  /** The last quantum, which may be padded: only the bytes it stands for are written. */
  method DecodeLast(src: string, dest: array<byte>, c: nat) returns (ok: bool)
    requires |src| == 4 * c + 4 && 3 * c + Kept(src[4 * c..]) <= dest.Length
    requires Decode(src) == Prepend(dest[..3 * c], Decode(src[4 * c..]))
    modifies dest
    ensures ok <==> Decode(src).Some?
    ensures ok ==> dest[..3 * c + Kept(src[4 * c..])] == Decode(src).value
    ensures dest[3 * c + Kept(src[4 * c..])..] == old(dest[3 * c + Kept(src[4 * c..])..])
  {
    hide Triple, Values, Final, Letters, Kept, Decode;
    var q := src[4 * c..4 * c + 4];
    assert q == src[4 * c..];
    DecodeStep(src, 4 * c);
    KeptBound(q);
    var v;
    ok, v := ReadQuantum(q, true);
    if ok {
      Emit(dest, 3 * c, Triple(v), Kept(q));
    }
  }

  lemma DecodedSizeIs(src: string, c: nat)
    requires |src| == 4 * c + 4
    ensures DecodedSize(src) == 3 * c + Kept(src[4 * c..]) <= 3 * c + 3
  {
    KeptBound(src[4 * c..]);
  }

  lemma LaterTail<T>(before: seq<T>, after: seq<T>, from: nat, to: nat)
    requires |before| == |after| && from <= to <= |before| && before[from..] == after[from..]
    ensures before[to..] == after[to..]
  {
    assert before[to..] == before[from..][to - from..];
    assert after[to..] == after[from..][to - from..];
  }

  /** The quanta one after the other into a buffer that is large enough. */
  method DecodeAll(src: string, dest: array<byte>) returns (ok: bool)
    requires WholeQuanta(src) && DecodedSize(src) <= dest.Length
    modifies dest
    ensures ok <==> Decode(src).Some?
    ensures ok ==> dest[..DecodedSize(src)] == Decode(src).value
    ensures dest[DecodedSize(src)..] == old(dest[DecodedSize(src)..])
  {
    hide Kept, Decode, DecodedSize;
    var whole := |src| / 4;
    DecodedSizeIs(src, whole - 1);
    ghost var size := DecodedSize(src);
    assert src[0..] == src && dest[..0] == [];
    PrependNone(Decode(src));
    var c := 0;
    while c + 1 < whole
      invariant 0 <= c < whole
      invariant Decode(src) == Prepend(dest[..3 * c], Decode(src[4 * c..]))
      invariant dest[size..] == old(dest[size..])
      decreases whole - c
    {
      ghost var before := dest[..];
      ok := DecodeRound(src, dest, c);
      LaterTail(before, dest[..], 3 * c + 3, size);
      if !ok {
        return;
      }
      c := c + 1;
    }
    ok := DecodeLast(src, dest, c);
  }

  /** Fill a caller-supplied buffer; a null buffer asks for the size needed, and a null
      source only ever for an upper bound. On success exactly that many bytes are
      written, and never a byte past them. */
  method DecodeInto(src: Option<string>, srcLen: nat, dest: array?<byte>, destSize: nat) returns (n: nat)
    requires src.Some? ==> srcLen == |src.value|
    requires dest != null ==> destSize <= dest.Length
    modifies dest
    ensures src.None? ==> n == if dest == null && srcLen % 4 == 0 then srcLen / 4 * 3 else 0
    ensures src.Some? && (dest == null || !WholeQuanta(src.value)) ==> n == DecodedSize(src.value)
    ensures dest != null && src.Some? && Decode(src.value).Some? && DecodedSize(src.value) <= destSize ==>
              n == DecodedSize(src.value) && n <= dest.Length && dest[..n] == Decode(src.value).value
    ensures dest != null && src.Some? && (Decode(src.value).None? || DecodedSize(src.value) > destSize) ==> n == 0
    ensures dest != null && src.Some? && DecodedSize(src.value) <= destSize ==>
              dest[DecodedSize(src.value)..] == old(dest[DecodedSize(src.value)..])
    ensures dest != null && (src.None? || DecodedSize(src.value) > destSize) ==> dest[..] == old(dest[..])
  {
    hide Kept, Decode;
    if src.Some? {
      DecodeOnlyWhole(src.value);
    }
    var whole := srcLen / 4;
    if whole == 0 || srcLen % 4 != 0 {
      return 0;
    }
    var total := whole * 3;
    if src.Some? {
      DecodedSizeIs(src.value, whole - 1);
      total := total - (3 - Kept(src.value[srcLen - 4..]));
    }
    if dest == null {
      return total;
    }
    if destSize < total {
      return 0;
    }
    if src.None? {
      return 0;
    }
    var ok := DecodeAll(src.value, dest);
    return if ok then total else 0;
  }

  /** What the query with a null source answers is enough for every source of that length. */
  lemma UpperBound(s: string)
    ensures DecodedSize(s) <= |s| / 4 * 3
  {
    if WholeQuanta(s) {
      DecodedSizeIs(s, |s| / 4 - 1);
    }
  }

  lemma DecodeOnlyWhole(s: string)
    ensures Decode(s).Some? ==> WholeQuanta(s)
  {
  }

  lemma PrependNone(r: Option<seq<byte>>)
    ensures Prepend([], r) == r
  {
    if r.Some? {
      assert [] + r.value == r.value;
    }
  }

  lemma KeptBound(q: string)
    requires |q| == 4
    ensures Kept(q) <= 3
  {
  }

  // ---- the string functions ---------------------------------------------------------------------------

  predicate Space(c: char) {
    c == '\n' || c == '\r' || c == ' ' || c == '\t'
  }

  /** The text without its whitespace. */
  function Compact(s: string): string {
    if s == "" then "" else (if Space(s[0]) then "" else [s[0]]) + Compact(s[1..])
  }

  lemma {:induction false} CompactConcat(a: string, b: string)
    ensures Compact(a + b) == Compact(a) + Compact(b)
    decreases |a|
  {
    if a == "" {
      assert a + b == b;
    } else {
      assert (a + b)[1..] == a[1..] + b;
      CompactConcat(a[1..], b);
    }
  }

  lemma {:induction false} CompactKeeps(s: string)
    requires forall i :: 0 <= i < |s| ==> !Space(s[i])
    ensures Compact(s) == s
    decreases |s|
  {
    if s == "" {
    } else {
      CompactKeeps(s[1..]);
      assert s == [s[0]] + s[1..];
    }
  }

  /** Size query, allocation, fill. */
  method EncodeString(data: seq<byte>) returns (out: string)
    ensures out == if |data| <= SIZE_MAX / 2 then Encode(data) else ""
  {
    if |data| == 0 {
      return "";
    }
    var len := EncodeInto(data, null, 0);
    var buffer := new char[len](i => '\0');
    var n := EncodeInto(data, buffer, len);
    EncodeLength(data);
    return buffer[..];
  }

  method Compacted(encoded: string) returns (compact: string)
    ensures compact == Compact(encoded)
  {
    compact := "";
    assert encoded[0..] == encoded;
    for i := 0 to |encoded|
      invariant compact + Compact(encoded[i..]) == Compact(encoded)
    {
      assert encoded[i..][1..] == encoded[i + 1..];
      if !Space(encoded[i]) {
        compact := compact + [encoded[i]];
      }
    }
    assert encoded[|encoded|..] == "";
  }

  /** Decode what is left without whitespace; empty when that does not decode. */
  method DecodeString(encoded: string) returns (out: seq<byte>)
    ensures out == if Decode(Compact(encoded)).Some? then Decode(Compact(encoded)).value else []
  {
    hide Decode, Compact, DecodedSize, WholeQuanta;
    var compact := Compacted(encoded);
    DecodeOnlyWhole(compact);
    NoQuanta(compact);
    if Decode(compact).Some? {
      DecodeSize(compact);
    }
    if compact == "" {
      return [];
    }
    var needed := DecodeInto(Some(compact), |compact|, null, 0);
    if needed == 0 {
      return [];
    }
    var buffer := new byte[needed](i => 0);
    var written := DecodeInto(Some(compact), |compact|, buffer, needed);
    if written == 0 {
      return [];
    }
    return buffer[..written];
  }

  lemma NoQuanta(s: string)
    ensures s == "" ==> !WholeQuanta(s)
    ensures !WholeQuanta(s) ==> DecodedSize(s) == 0
  {
  }

  function Line(s: string): nat {
    if |s| <= 64 then |s| else 64
  }

  /** Lines of 64 characters, each ended by CRLF. */
  function Wrapped(s: string): string {
    if s == "" then "" else s[..Line(s)] + "\r\n" + Wrapped(s[Line(s)..])
  }

  method WrapPem(b64: string) returns (out: string)
    ensures out == Wrapped(b64)
  {
    out := "";
    var i := 0;
    ghost var rest := b64;
    while i < |b64|
      invariant 0 <= i && rest == (if i < |b64| then b64[i..] else "")
      invariant out + Wrapped(rest) == Wrapped(b64)
      decreases |b64| - i
    {
      var line := b64[i..i + Line(b64[i..])];
      assert line == rest[..Line(rest)];
      WrapOne(out, rest);
      out := out + line;
      out := out + "\r\n";
      i := i + 64;
      rest := rest[Line(rest)..];
    }
  }

  lemma {:induction false} WrapOne(out: string, rest: string)
    requires rest != ""
    ensures out + Wrapped(rest) == out + rest[..Line(rest)] + "\r\n" + Wrapped(rest[Line(rest)..])
  {
    var line, more := rest[..Line(rest)], Wrapped(rest[Line(rest)..]);
    assert out + (line + "\r\n" + more) == out + line + "\r\n" + more;
  }

  lemma {:induction false} CompactWrapped(s: string)
    ensures Compact(Wrapped(s)) == Compact(s)
    decreases |s|
  {
    if s == "" {
    } else {
      var line, rest := s[..Line(s)], s[Line(s)..];
      CompactConcat(line + "\r\n", Wrapped(rest));
      CompactConcat(line, "\r\n");
      assert Compact("\r\n") == "";
      CompactWrapped(rest);
      CompactConcat(line, rest);
      assert s == line + rest;
    }
  }

  lemma {:induction false} CanonicalNoSpace(s: string)
    requires Canonical(s)
    ensures forall i :: 0 <= i < |s| ==> !Space(s[i])
    decreases |s|
  {
    if |s| > 4 {
      CanonicalNoSpace(s[4..]);
      assert s == s[..4] + s[4..];
      assert forall i :: 0 <= i < 4 ==> s[..4][i] == s[i];
    } else if !Letters(s) {
      if Letters(s[..3]) && s[3] == '=' {
        assert forall i :: 0 <= i < 3 ==> s[..3][i] == s[i];
      } else {
        assert forall i :: 0 <= i < 2 ==> s[..2][i] == s[i];
      }
    }
  }

  /** Whatever whitespace an encoding is broken up with, it decodes to the bytes it stands for. */
  lemma {:induction false} SpacedRoundTrip(b: seq<byte>, text: string)
    requires b != [] && Compact(text) == Compact(Encode(b))
    ensures Decode(Compact(text)) == Some(b)
  {
    hide Encode, Decode, Canonical, Compact;
    EncodeCanonical(b);
    CanonicalNoSpace(Encode(b));
    CompactKeeps(Encode(b));
    DecodeEncode(b);
  }

  /** In particular after wrapping it in lines the way PEM does. */
  lemma {:induction false} WrappedRoundTrip(b: seq<byte>)
    requires b != []
    ensures Decode(Compact(Wrapped(Encode(b)))) == Some(b)
  {
    CompactWrapped(Encode(b));
    SpacedRoundTrip(b, Wrapped(Encode(b)));
  }

  // ---- what the characters stand for ------------------------------------------------------------------

  /** The four kinds of whitespace that are skipped. */
  lemma SpaceIs(c: char)
    ensures Space(c) <==> c in " \t\r\n"
  {
    var all := " \t\r\n";
    assert all[0] == ' ' && all[1] == '\t' && all[2] == '\r' && all[3] == '\n';
  }

  /** A quantum as a 24-bit number, six bits for each character and none for padding. */
  function Weight(q: string): nat
    requires |q| == 4
  {
    Value(q[0]) * 262144 + Value(q[1]) * 4096 + Value(q[2]) * 64 + Value(q[3])
  }

  lemma WeightSplits(v0: sextet, v1: sextet, v2: sextet, v3: sextet)
    ensures var w: int := v0 * 262144 + v1 * 4096 + v2 * 64 + v3;
            && w / 65536 == v0 * 4 + v1 / 16
            && w / 256 % 256 == v1 % 16 * 16 + v2 / 4
            && w % 256 == v2 % 4 * 64 + v3
  {
    var w: int := v0 * 262144 + v1 * 4096 + v2 * 64 + v3;
    var h0: int, h1: int, h2: int := v0 * 4 + v1 / 16, v1 % 16 * 16 + v2 / 4, v2 % 4 * 64 + v3;
    assert w == h0 * 65536 + h1 * 256 + h2;
    Digits(h0, h1, h2);
  }

  lemma Digits(a: int, b: int, c: int)
    requires 0 <= a < 256 && 0 <= b < 256 && 0 <= c < 256
    ensures var w := a * 65536 + b * 256 + c; w / 65536 == a && w / 256 % 256 == b && w % 256 == c
  {
    var w := a * 65536 + b * 256 + c;
    assert w / 256 == a * 256 + b;
  }

  /** The bytes of a quantum are the three base-256 digits of its number. */
  lemma TripleIs(q: string)
    requires |q| == 4
    ensures Triple(Values(q)) == [Weight(q) / 65536, Weight(q) / 256 % 256, Weight(q) % 256]
  {
    WeightSplits(Value(q[0]), Value(q[1]), Value(q[2]), Value(q[3]));
  }

  function Digit(w: nat, k: nat): nat
    requires k < 3
  {
    if k == 0 then w / 65536 else if k == 1 then w / 256 % 256 else w % 256
  }

  /** Decoding gives, byte by byte, the digits of the quanta: whatever text decodes, and so
      whatever bytes were encoded, stand for the same bits as their characters. */
  lemma {:induction false} DecodedAt(s: string, j: nat)
    requires Decode(s).Some? && j < |Decode(s).value|
    ensures 4 * (j / 3) + 4 <= |s|
    ensures Decode(s).value[j] == Digit(Weight(s[4 * (j / 3)..4 * (j / 3) + 4]), j % 3)
    decreases |s|
  {
    hide Values, Triple, Final, Letters, Weight, Kept;
    if |s| <= 4 {
      KeptBound(s);
      TripleIs(s);
      assert s[0..4] == s;
    } else {
      TripleIs(s[..4]);
      if j < 3 {
        assert s[0..4] == s[..4];
      } else {
        DecodedAt(s[4..], j - 3);
        assert s[4..][4 * (j / 3 - 1)..4 * (j / 3 - 1) + 4] == s[4 * (j / 3)..4 * (j / 3) + 4];
      }
    }
  }

  /** A text decodes if and only if it is whole quanta of letters, of which the last may hold
      padding: equals signs or NULs. */
  lemma {:induction false} DecodableIff(s: string)
    ensures Decode(s).Some? <==>
            && |s| > 0 && |s| % 4 == 0
            && forall i :: 0 <= i < |s| ==> Sextet(s[i]) >= 0 || (i >= |s| - 4 && s[i] in {'=', '\0'})
    decreases |s|
  {
    hide Values, Triple, Kept, Sextet;
    if |s| <= 4 || |s| % 4 != 0 {
    } else {
      DecodableIff(s[4..]);
      assert forall i :: 0 <= i < 4 ==> s[..4][i] == s[i];
      assert forall i :: 4 <= i < |s| ==> s[i] == s[4..][i - 4];
    }
  }

  /** The size of what is decoded: three bytes a quantum, less one for each character from the
      first padding of the last quantum on, but never less than none of its three. */
  lemma {:induction false} DecodedSizeFrom(s: string, q: string, p: nat)
    requires |s| > 0 && |s| % 4 == 0 && q == s[|s| - 4..] && p <= 4
    requires (forall i :: 0 <= i < p ==> !Pad(q[i])) && (p < 4 ==> Pad(q[p]))
    ensures DecodedSize(s) == |s| / 4 * 3 - if p == 0 then 3 else 4 - p
  {
  }

  lemma LineUp(n: nat)
    requires n >= 64
    ensures n / 64 == (n - 64) / 64 + 1 && (n + 63) / 64 == (n - 1) / 64 + 1
  {
  }

  lemma {:induction false} WrappedLength(s: string)
    ensures |Wrapped(s)| == |s| + 2 * ((|s| + 63) / 64)
    decreases |s|
  {
    if s == "" {
    } else if |s| <= 64 {
      assert Wrapped(s[|s|..]) == "";
    } else {
      WrappedLength(s[64..]);
      LineUp(|s| + 63);
    }
  }

  /** Wrapping puts every character where it belongs: 64 to a line, two more for each line end. */
  lemma {:induction false} WrappedAt(s: string, i: nat)
    requires i < |s|
    ensures i + 2 * (i / 64) < |Wrapped(s)| && Wrapped(s)[i + 2 * (i / 64)] == s[i]
    decreases |s|
  {
    var line, rest := s[..Line(s)], s[Line(s)..];
    hide Wrapped;
    WrapOne("", s);
    assert "" + Wrapped(s) == Wrapped(s) && "" + line == line;
    if i < 64 {
      assert i / 64 == 0;
    } else {
      LineUp(i);
      WrappedAt(rest, i - 64);
    }
  }
}
