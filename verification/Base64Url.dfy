/**
 Model of the base64url codec of agentsfleet/src/lib/cli-flow.ts and ui/packages/app/lib/auth/cli-flow.ts
 (section 5 of RFC 4648), over `btoa` and `atob` as section 4 of RFC 4648 and the forgiving decoder of the
 WHATWG Infra Standard have them. A binary string is a sequence of bytes.
 */
module Base64Url {
  import opened Wrappers

  type Byte = bv8
  type Sextet = bv6

  // ---------------------------------------------------------------- bytes and sextets

  // Three bytes p, q, r and four sextets a, b, c, d are the same 24 bits.

  function A(p: Byte): Sextet { (p >> 2) as bv6 }
  function B(p: Byte, q: Byte): Sextet { ((p & 3) << 4) as bv6 | (q >> 4) as bv6 }
  function C(q: Byte, r: Byte): Sextet { ((q & 15) << 2) as bv6 | (r >> 6) as bv6 }
  function D(r: Byte): Sextet { (r & 63) as bv6 }

  function P(a: Sextet, b: Sextet): Byte { (a as bv8 << 2) | (b >> 4) as bv8 }
  function Q(b: Sextet, c: Sextet): Byte { ((b & 15) as bv8 << 4) | (c >> 2) as bv8 }
  function R(c: Sextet, d: Sextet): Byte { ((c & 3) as bv8 << 6) | d as bv8 }

  lemma BlockOfBytes(p: Byte, q: Byte, r: Byte)
    ensures P(A(p), B(p, q)) == p && Q(B(p, q), C(q, r)) == q && R(C(q, r), D(r)) == r
  {
  }

  lemma BlockOfSextets(a: Sextet, b: Sextet, c: Sextet, d: Sextet)
    ensures A(P(a, b)) == a && B(P(a, b), Q(b, c)) == b && C(Q(b, c), R(c, d)) == c && D(R(c, d)) == d
  {
  }

  function Sextets(b: seq<Byte>): (x: seq<Sextet>)
    ensures |x| % 4 != 1 && |x| == (4 * |b| + 2) / 3
  {
    if |b| == 0 then []
    else if |b| == 1 then [A(b[0]), B(b[0], 0)]
    else if |b| == 2 then [A(b[0]), B(b[0], b[1]), C(b[1], 0)]
    else [A(b[0]), B(b[0], b[1]), C(b[1], b[2]), D(b[2])] + Sextets(b[3..])
  }

  /** Bits left over at the end are dropped. */
  function Bytes(x: seq<Sextet>): seq<Byte>
    requires |x| % 4 != 1
  {
    if |x| == 0 then []
    else if |x| == 2 then [P(x[0], x[1])]
    else if |x| == 3 then [P(x[0], x[1]), Q(x[1], x[2])]
    else [P(x[0], x[1]), Q(x[1], x[2]), R(x[2], x[3])] + Bytes(x[4..])
  }

  lemma BytesBlock(a: Sextet, b: Sextet, c: Sextet, d: Sextet, rest: seq<Sextet>)
    requires |rest| % 4 != 1
    ensures Bytes([a, b, c, d] + rest) == [P(a, b), Q(b, c), R(c, d)] + Bytes(rest)
  {
    assert ([a, b, c, d] + rest)[4..] == rest;
  }

  lemma SextetsBlock(p: Byte, q: Byte, r: Byte, rest: seq<Byte>)
    ensures Sextets([p, q, r] + rest) == [A(p), B(p, q), C(q, r), D(r)] + Sextets(rest)
  {
    assert ([p, q, r] + rest)[3..] == rest;
  }

  lemma {:induction false} BytesOfSextets(b: seq<Byte>)
    ensures Bytes(Sextets(b)) == b
  {
    if |b| >= 3 {
      BytesOfSextets(b[3..]);
      BlockOfBytes(b[0], b[1], b[2]);
      BytesBlock(A(b[0]), B(b[0], b[1]), C(b[1], b[2]), D(b[2]), Sextets(b[3..]));
    }
  }

  /** No bits are left over. */
  predicate NoSpareBits(x: seq<Sextet>) {
    && |x| % 4 != 1
    && (|x| % 4 == 2 ==> x[|x| - 1] & 15 == 0)
    && (|x| % 4 == 3 ==> x[|x| - 1] & 3 == 0)
  }

  /** A whole block in front makes no difference. */
  lemma NoSpareBitsBehind(block: seq<Sextet>, rest: seq<Sextet>)
    requires |block| == 4
    ensures NoSpareBits(block + rest) <==> NoSpareBits(rest)
  {
    var all := block + rest;
    assert |all| % 4 == |rest| % 4;
    if rest != [] {
      assert all[|all| - 1] == rest[|rest| - 1];
    }
  }

  lemma {:induction false} SextetsHaveNoSpareBits(b: seq<Byte>)
    ensures NoSpareBits(Sextets(b))
  {
    if |b| >= 3 {
      SextetsHaveNoSpareBits(b[3..]);
      NoSpareBitsBehind([A(b[0]), B(b[0], b[1]), C(b[1], b[2]), D(b[2])], Sextets(b[3..]));
    }
  }

  lemma {:induction false} SextetsOfBytes(x: seq<Sextet>)
    requires NoSpareBits(x)
    ensures Sextets(Bytes(x)) == x
  {
    if |x| >= 4 {
      assert x == x[..4] + x[4..];
      NoSpareBitsBehind(x[..4], x[4..]);
      SextetsOfBytes(x[4..]);
      BlockOfSextets(x[0], x[1], x[2], x[3]);
      SextetsBlock(P(x[0], x[1]), Q(x[1], x[2]), R(x[2], x[3]), Bytes(x[4..]));
      assert x == [x[0], x[1], x[2], x[3]] + x[4..];
    } else if |x| == 3 {
      assert x == [x[0], x[1], x[2]];
      ThreeSextets(x[0], x[1], x[2]);
    } else if |x| == 2 {
      assert x == [x[0], x[1]];
      TwoSextets(x[0], x[1]);
    }
  }

  lemma ThreeSextets(a: Sextet, b: Sextet, c: Sextet)
    requires c & 3 == 0
    ensures Sextets(Bytes([a, b, c])) == [a, b, c]
  {
    BlockOfSextets(a, b, c, 0);
    assert R(c, 0) == 0;
  }

  lemma TwoSextets(a: Sextet, b: Sextet)
    requires b & 15 == 0
    ensures Sextets(Bytes([a, b])) == [a, b]
  {
    BlockOfSextets(a, b, 0, 0);
    assert Q(b, 0) == 0;
  }

  // Each block of both as one word of 24 bits, with zeros where the text has ended.

  function WordOfBytes(p: Byte, q: Byte, r: Byte): bv24 {
    (p as bv24 << 16) | (q as bv24 << 8) | r as bv24
  }

  function WordOfSextets(a: Sextet, b: Sextet, c: Sextet, d: Sextet): bv24 {
    (a as bv24 << 18) | (b as bv24 << 12) | (c as bv24 << 6) | d as bv24
  }

  function ByteAt(b: seq<Byte>, i: nat): Byte {
    if i < |b| then b[i] else 0
  }

  function SextetAt(x: seq<Sextet>, i: nat): Sextet {
    if i < |x| then x[i] else 0
  }

  lemma SameWord(p: Byte, q: Byte, r: Byte)
    ensures WordOfSextets(A(p), B(p, q), C(q, r), D(r)) == WordOfBytes(p, q, r)
    ensures D(0) == 0 && C(0, 0) == 0
  {
  }

  /** The k-th block of four sextets. */
  function SextetWord(x: seq<Sextet>, k: nat): bv24 {
    WordOfSextets(SextetAt(x, 4 * k), SextetAt(x, 4 * k + 1), SextetAt(x, 4 * k + 2), SextetAt(x, 4 * k + 3))
  }

  /** The k-th block of three bytes. */
  function ByteWord(b: seq<Byte>, k: nat): bv24 {
    WordOfBytes(ByteAt(b, 3 * k), ByteAt(b, 3 * k + 1), ByteAt(b, 3 * k + 2))
  }

  lemma FirstWord(b: seq<Byte>)
    requires b != []
    ensures SextetWord(Sextets(b), 0) == ByteWord(b, 0)
  {
    SameWord(b[0], ByteAt(b, 1), ByteAt(b, 2));
  }

  lemma WordBehind(block: seq<Sextet>, rest: seq<Sextet>, k: nat)
    requires |block| == 4 && k > 0
    ensures SextetWord(block + rest, k) == SextetWord(rest, k - 1)
  {
    assert forall i :: 4 <= i < 4 + |rest| ==> (block + rest)[i] == rest[i - 4];
  }

  lemma LaterWord(b: seq<Byte>, k: nat)
    requires |b| >= 3 && k > 0
    ensures SextetWord(Sextets(b), k) == SextetWord(Sextets(b[3..]), k - 1)
  {
    WordBehind([A(b[0]), B(b[0], b[1]), C(b[1], b[2]), D(b[2])], Sextets(b[3..]), k);
  }

  /** The sextets are the bits of the bytes, in their order. */
  lemma {:induction false} SextetsAreTheBits(b: seq<Byte>, k: nat)
    requires 3 * k < |b|
    ensures SextetWord(Sextets(b), k) == ByteWord(b, k)
    decreases k
  {
    if k == 0 {
      FirstWord(b);
    } else {
      SextetsAreTheBits(b[3..], k - 1);
      LaterWord(b, k);
    }
  }

  // ---------------------------------------------------------------- alphabets

  function CharAt(n: int): char
    requires 0 <= n < 64
  {
    if n < 26 then ('A' as int + n) as char
    else if n < 52 then ('a' as int + n - 26) as char
    else if n < 62 then ('0' as int + n - 52) as char
    else if n == 62 then '+' else '/'
  }

  predicate IsStd(c: char) {
    'A' <= c <= 'Z' || 'a' <= c <= 'z' || '0' <= c <= '9' || c == '+' || c == '/'
  }

  function IndexOf(c: char): (n: int)
    requires IsStd(c)
    ensures 0 <= n < 64 && CharAt(n) == c
  {
    if 'A' <= c <= 'Z' then c as int - 'A' as int
    else if 'a' <= c <= 'z' then c as int - 'a' as int + 26
    else if '0' <= c <= '9' then c as int - '0' as int + 52
    else if c == '+' then 62 else 63
  }

  function StdChar(x: Sextet): char {
    CharAt(x as int)
  }

  function StdIndex(c: char): Sextet
    requires IsStd(c)
  {
    IndexOf(c) as bv6
  }

  lemma SextetOfInt(n: int)
    requires 0 <= n < 64
    ensures (n as bv6) as int == n
  {
  }

  lemma IntOfSextet(x: Sextet)
    ensures (x as int) as bv6 == x
  {
  }

  lemma CharAtIsStd(n: int)
    requires 0 <= n < 64
    ensures IsStd(CharAt(n)) && IndexOf(CharAt(n)) == n
  {
  }

  /** The alphabet is a one-to-one naming of the sextets. */
  lemma CharOfIndex(c: char)
    requires IsStd(c)
    ensures StdChar(StdIndex(c)) == c
  {
    SextetOfInt(IndexOf(c));
  }

  lemma IndexOfStdChar(x: Sextet)
    ensures IsStd(StdChar(x)) && StdIndex(StdChar(x)) == x
  {
    CharAtIsStd(x as int);
    IntOfSextet(x);
  }

  predicate AllStd(s: string) {
    forall i :: 0 <= i < |s| ==> IsStd(s[i])
  }

  function Spell(x: seq<Sextet>): (s: string)
    ensures |s| == |x| && AllStd(s)
  {
    assert forall i :: 0 <= i < |x| ==> IsStd(StdChar(x[i])) by {
      forall i | 0 <= i < |x| ensures IsStd(StdChar(x[i])) {
        IndexOfStdChar(x[i]);
      }
    }
    seq(|x|, i requires 0 <= i < |x| => StdChar(x[i]))
  }

  function Read(s: string): (x: seq<Sextet>)
    requires AllStd(s)
    ensures |x| == |s|
  {
    seq(|s|, i requires 0 <= i < |s| => StdIndex(s[i]))
  }

  lemma ReadSpell(x: seq<Sextet>)
    ensures Read(Spell(x)) == x
  {
    forall i | 0 <= i < |x| ensures Read(Spell(x))[i] == x[i] {
      IndexOfStdChar(x[i]);
    }
  }

  lemma SpellRead(s: string)
    requires AllStd(s)
    ensures Spell(Read(s)) == s
  {
    forall i | 0 <= i < |s| ensures Spell(Read(s))[i] == s[i] {
      CharOfIndex(s[i]);
    }
  }

  // ---------------------------------------------------------------- btoa and atob

  function Pads(n: nat): (s: string)
    ensures |s| == n && forall i :: 0 <= i < n ==> s[i] == '='
  {
    seq(n, _ => '=')
  }

  function Btoa(binary: seq<Byte>): string {
    Spell(Sextets(binary)) + Pads((3 - |binary| % 3) % 3)
  }

  predicate IsAsciiSpace(c: char) {
    c == '\t' || c == '\n' || c == '\U{0C}' || c == '\r' || c == ' '
  }

  function WithoutSpaces(s: string): string {
    if s == "" then "" else (if IsAsciiSpace(s[0]) then "" else [s[0]]) + WithoutSpaces(s[1..])
  }

  /** Of a text whose length is a multiple of four, up to two trailing pads go. */
  function Unpadded(s: string): string {
    if |s| % 4 != 0 || s == "" || s[|s| - 1] != '=' then s
    else if s[|s| - 2] != '=' then s[..|s| - 1]
    else s[..|s| - 2]
  }

  /** None is the InvalidCharacterError. */
  function Atob(s: string): Option<seq<Byte>> {
    var t := Unpadded(WithoutSpaces(s));
    if |t| % 4 == 1 || !AllStd(t) then None else Some(Bytes(Read(t)))
  }

  lemma {:induction false} NoSpacesToRemove(s: string)
    requires forall i :: 0 <= i < |s| ==> !IsAsciiSpace(s[i])
    ensures WithoutSpaces(s) == s
  {
    if s != "" {
      NoSpacesToRemove(s[1..]);
    }
  }

  // ---------------------------------------------------------------- the codec

  function UrlOf(c: char): char {
    if c == '+' then '-' else if c == '/' then '_' else c
  }

  function StdOf(c: char): char {
    if c == '-' then '+' else if c == '_' then '/' else c
  }

  function ToUrl(s: string): (t: string)
    ensures |t| == |s|
  {
    seq(|s|, i requires 0 <= i < |s| => UrlOf(s[i]))
  }

  function ToStd(s: string): (t: string)
    ensures |t| == |s|
  {
    seq(|s|, i requires 0 <= i < |s| => StdOf(s[i]))
  }

  /** `replace(/=+$/, "")`. */
  function StripPads(s: string): string {
    if s != "" && s[|s| - 1] == '=' then StripPads(s[..|s| - 1]) else s
  }

  function PadCount(length: nat): nat {
    (4 - length % 4) % 4
  }

  function Encode(bytes: seq<Byte>): string {
    StripPads(ToUrl(Btoa(bytes)))
  }

  function Decode(input: string): Option<seq<Byte>> {
    Atob(ToStd(input) + Pads(PadCount(|input|)))
  }

  method Base64UrlEncode(bytes: array<Byte>) returns (s: string)
    ensures s == Encode(bytes[..])
  {
    var binary: seq<Byte> := [];
    for i := 0 to bytes.Length
      invariant binary == bytes[..i]
    {
      binary := binary + [bytes[i]];
    }
    assert bytes[..bytes.Length] == bytes[..];
    s := StripPads(ToUrl(Btoa(binary)));
  }

  method Base64UrlDecode(input: string) returns (out: Option<array<Byte>>)
    ensures out.Some? <==> Decode(input).Some?
    ensures out.Some? ==> fresh(out.value) && out.value[..] == Decode(input).value
  {
    var binary := Atob(ToStd(input) + Pads(PadCount(|input|)));
    if binary.None? {
      return None;
    }
    var buf := new Byte[|binary.value|];
    for i := 0 to buf.Length
      invariant buf[..i] == binary.value[..i]
    {
      buf[i] := binary.value[i];
    }
    assert buf[..] == buf[..buf.Length] && binary.value[..buf.Length] == binary.value;
    out := Some(buf);
  }

  /** The texts Encode writes: the URL alphabet without pads, and no bits left over. */
  predicate IsUrlChar(c: char) {
    IsStd(StdOf(c)) && c != '+' && c != '/'
  }

  predicate Canonical(s: string) {
    && (forall i :: 0 <= i < |s| ==> IsUrlChar(s[i]))
    && AllStd(ToStd(s)) && NoSpareBits(Read(ToStd(s)))
  }

  lemma {:induction false} StripOnlyPads(s: string, n: nat)
    requires s == "" || s[|s| - 1] != '='
    ensures StripPads(s + Pads(n)) == s
  {
    if n == 0 {
      assert s + Pads(0) == s;
    } else {
      assert (s + Pads(n))[..|s| + n - 1] == s + Pads(n - 1);
      StripOnlyPads(s, n - 1);
    }
  }

  /** Encode is the sextets in the URL alphabet. */
  lemma EncodeIs(bytes: seq<Byte>)
    ensures Encode(bytes) == ToUrl(Spell(Sextets(bytes)))
  {
    var s, n := Spell(Sextets(bytes)), (3 - |bytes| % 3) % 3;
    assert ToUrl(s + Pads(n)) == ToUrl(s) + Pads(n);
    assert forall i :: 0 <= i < |s| ==> IsStd(s[i]) && ToUrl(s)[i] != '=';
    StripOnlyPads(ToUrl(s), n);
  }

  /** The letters: capitals are 0 to 25, small letters 26 to 51, digits 52 to 61, '-' is 62 and '_' 63. */
  lemma EncodedLetters(bytes: seq<Byte>, i: nat)
    requires i < |Encode(bytes)|
    ensures |Encode(bytes)| == |Sextets(bytes)|
    ensures var c, n := Encode(bytes)[i], Sextets(bytes)[i] as int;
            && (n <= 25 ==> c as int == 65 + n) && (26 <= n <= 51 ==> c as int == 97 + (n - 26))
            && (52 <= n <= 61 ==> c as int == 48 + (n - 52)) && (n == 62 ==> c == '-') && (n == 63 ==> c == '_')
  {
    EncodeIs(bytes);
  }

  lemma PadCountCompletes(length: nat)
    ensures PadCount(length) == match length % 4 case 0 => 0 case 1 => 3 case 2 => 2 case _ => 1
    ensures (length + PadCount(length)) % 4 == 0
  {
    var q := length / 4;
    assert length + PadCount(length) == 4 * q || length + PadCount(length) == 4 * (q + 1);
  }

  lemma PadArithmetic(n: nat)
    ensures PadCount((4 * n + 2) / 3) == (3 - n % 3) % 3
  {
    var q := n / 3;
    match n % 3 {
      case 0 => assert (4 * n + 2) / 3 == 4 * q;
      case 1 => assert (4 * n + 2) / 3 == 4 * q + 2;
      case 2 => assert (4 * n + 2) / 3 == 4 * q + 3;
    }
  }

  /** Stripping the pads loses nothing: their number is determined by the length of the rest. */
  lemma PadsAreRestored(bytes: seq<Byte>)
    ensures ToStd(Encode(bytes)) + Pads(PadCount(|Encode(bytes)|)) == Btoa(bytes)
  {
    EncodeIs(bytes);
    PadArithmetic(|bytes|);
    StdOfUrl(Spell(Sextets(bytes)));
  }

  lemma StdOfUrl(s: string)
    requires AllStd(s)
    ensures ToStd(ToUrl(s)) == s
  {
    forall i | 0 <= i < |s| ensures StdOf(UrlOf(s[i])) == s[i] {
      assert IsStd(s[i]);
    }
  }

  lemma UnpadPadded(s: string, n: nat)
    requires n <= 2 && (|s| + n) % 4 == 0 && (s == "" ==> n == 0) && (s != "" ==> s[|s| - 1] != '=')
    ensures Unpadded(s + Pads(n)) == s
  {
    var t := s + Pads(n);
    if n == 0 {
      assert t == s;
    } else {
      assert t[|t| - 1] == '=' && t[..|s|] == s;
    }
  }

  lemma PaddedHasNoSpaces(s: string, n: nat)
    requires AllStd(s)
    ensures WithoutSpaces(s + Pads(n)) == s + Pads(n)
  {
    var t := s + Pads(n);
    forall i | 0 <= i < |t| ensures !IsAsciiSpace(t[i]) {
      assert i < |s| ==> IsStd(s[i]);
    }
    NoSpacesToRemove(t);
  }

  lemma UnpadText(s: string)
    requires AllStd(s) && |s| % 4 != 1
    ensures Unpadded(WithoutSpaces(s + Pads(PadCount(|s|)))) == s
  {
    PadCountCompletes(|s|);
    PaddedHasNoSpaces(s, PadCount(|s|));
    assert s != "" ==> IsStd(s[|s| - 1]);
    UnpadPadded(s, PadCount(|s|));
  }

  /** For every byte sequence, on either side: decoding what was encoded gives it back. */
  lemma RoundTrip(bytes: seq<Byte>)
    ensures Decode(Encode(bytes)) == Some(bytes)
  {
    PadsAreRestored(bytes);
    EncodeIs(bytes);
    var s := Spell(Sextets(bytes));
    UnpadText(s);
    ReadSpell(Sextets(bytes));
    BytesOfSextets(bytes);
  }

  /** The other way round, for every text: it is decoded and encodes back to itself exactly if it is canonical. */
  lemma ReverseRoundTrip(input: string)
    ensures Decode(input).Some? && Encode(Decode(input).value) == input <==> Canonical(input)
  {
    if Canonical(input) {
      var s := ToStd(input);
      UnpadText(s);
      SextetsOfBytes(Read(s));
      SpellRead(s);
      EncodeIs(Bytes(Read(s)));
      assert ToUrl(s) == input;
    } else if Decode(input).Some? {
      EncodedIsCanonical(Decode(input).value);
    }
  }

  lemma EncodedIsCanonical(bytes: seq<Byte>)
    ensures Canonical(Encode(bytes))
  {
    EncodeIs(bytes);
    var s := Spell(Sextets(bytes));
    var u := ToUrl(s);
    forall i | 0 <= i < |u| ensures IsUrlChar(u[i]) {
      assert IsStd(s[i]);
    }
    StdOfUrl(s);
    ReadSpell(Sextets(bytes));
    SextetsHaveNoSpareBits(bytes);
  }

  lemma OtherPadCount(length: nat)
    ensures 3 - (length + 3) % 4 == PadCount(length)
  {
    PadCountCompletes(length);
    var q := length / 4;
    match length % 4 {
      case 0 => assert length + 3 == 4 * q + 3;
      case 1 => assert length + 3 == 4 * (q + 1);
      case 2 => assert length + 3 == 4 * (q + 1) + 1;
      case 3 => assert length + 3 == 4 * (q + 1) + 2;
    }
  }

  /** Both copies' pads are those that agentsfleet/src/program/auth-token.ts slices off "===". */
  lemma PadsAgree(length: nat)
    ensures Pads(PadCount(length)) == "==="[(length + 3) % 4..]
  {
    OtherPadCount(length);
    var tail := "==="[(length + 3) % 4..];
    assert |tail| == PadCount(length) && forall i :: 0 <= i < |tail| ==> tail[i] == '=';
  }
}
