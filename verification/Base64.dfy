/** Base64 as btoa and atob do it: section 4 of RFC 4648, and the forgiving decoder of the WHATWG Infra standard. */
module Base64 {
  import opened Records
  import opened Utf8

  type Sextet = v: int | 0 <= v < 64

  predicate Alphabetic(c: char) {
    'A' <= c <= 'Z' || 'a' <= c <= 'z' || '0' <= c <= '9' || c == '+' || c == '/'
  }

  function Digit(v: Sextet): (c: char)
    ensures Alphabetic(c) && Value(c) == v
  {
    if v < 26 then 'A' + v as char
    else if v < 52 then 'a' + (v - 26) as char
    else if v < 62 then '0' + (v - 52) as char
    else if v == 62 then '+' else '/'
  }

  function Value(c: char): Sextet
    requires Alphabetic(c)
  {
    if 'A' <= c <= 'Z' then (c - 'A') as int
    else if 'a' <= c <= 'z' then (c - 'a') as int + 26
    else if '0' <= c <= '9' then (c - '0') as int + 52
    else if c == '+' then 62 else 63
  }

  predicate AllAlphabetic(s: string) {
    forall i :: 0 <= i < |s| ==> Alphabetic(s[i])
  }

  function Letters(vs: seq<Sextet>): (s: string)
    ensures AllAlphabetic(s)
  {
    seq(|vs|, i requires 0 <= i < |vs| => Digit(vs[i]))
  }

  function Values(s: string): seq<Sextet>
    requires AllAlphabetic(s)
  {
    seq(|s|, i requires 0 <= i < |s| => Value(s[i]))
  }

  // ---- encoding ----

  /** Six bits at a time; the last ones are filled up with zeros. */
  function Split(b: seq<byte>): seq<Sextet> {
    if |b| == 0 then []
    else if |b| == 1 then [b[0] / 4, b[0] % 4 * 16]
    else if |b| == 2 then [b[0] / 4, b[0] % 4 * 16 + b[1] / 16, b[1] % 16 * 4]
    else [b[0] / 4, b[0] % 4 * 16 + b[1] / 16, b[1] % 16 * 4 + b[2] / 64, b[2] % 64] + Split(b[3..])
  }

  function Padding(n: nat): string {
    if n % 3 == 1 then "==" else if n % 3 == 2 then "=" else ""
  }

  /** btoa */
  function ToBase64(b: seq<byte>): string {
    Letters(Split(b)) + Padding(|b|)
  }

  // ---- decoding ----

  predicate Whitespace(c: char) {
    c == ' ' || c == '\t' || c == '\n' || c == '\r' || c == 12 as char
  }

  function WithoutSpace(s: string): string {
    if s == "" then "" else if Whitespace(s[0]) then WithoutSpace(s[1..]) else [s[0]] + WithoutSpace(s[1..])
  }

  function WithoutPadding(s: string): string {
    if |s| % 4 != 0 || s == "" || s[|s| - 1] != '=' then s
    else if s[|s| - 2] == '=' then s[..|s| - 2]
    else s[..|s| - 1]
  }

  function First(v: int, w: int): int { v * 4 + w / 16 }

  function Second(v: int, w: int): int { v % 16 * 16 + w / 4 }

  function Third(v: int, w: int): int { v % 4 * 64 + w }

  /** Eight bits at a time; what is left over is dropped. */
  function Joined(v: seq<Sextet>): seq<byte>
    requires |v| % 4 != 1
  {
    if |v| == 0 then []
    else if |v| == 2 then [First(v[0], v[1])]
    else if |v| == 3 then [First(v[0], v[1]), Second(v[1], v[2])]
    else
      assert |v[4..]| % 4 == |v| % 4;
      [First(v[0], v[1]), Second(v[1], v[2]), Third(v[2], v[3])] + Joined(v[4..])
  }

  /** atob; None where it throws. */
  function FromBase64(s: string): Option<seq<byte>> {
    var t := WithoutPadding(WithoutSpace(s));
    if |t| % 4 == 1 || !AllAlphabetic(t) then None else Some(Joined(Values(t)))
  }

  // ---- round trip ----

  lemma ThreeBytes(x: byte, y: byte, z: byte)
    ensures First(x / 4, x % 4 * 16 + y / 16) == x
    ensures Second(x % 4 * 16 + y / 16, y % 16 * 4 + z / 64) == y
    ensures Third(y % 16 * 4 + z / 64, z % 64) == z
    ensures First(x / 4, x % 4 * 16) == x && Second(x % 4 * 16 + y / 16, y % 16 * 4) == y
  {
  }

  lemma SameRemainders(m: nat, n: nat, j: nat, k: nat)
    requires n == m + 4 && k == j + 3
    ensures n % 4 == m % 4 && k % 3 == j % 3 && Padding(j) == Padding(k)
    ensures (m + |Padding(j)|) % 4 == 0 ==> (n + |Padding(k)|) % 4 == 0
  {
  }

  lemma {:induction false} SplitLength(b: seq<byte>)
    ensures |Split(b)| % 4 != 1
    ensures (|Split(b)| + |Padding(|b|)|) % 4 == 0
  {
    if |b| >= 3 {
      SplitLength(b[3..]);
      assert |Split(b)| == 4 + |Split(b[3..])|;
      hide Split;
      SameRemainders(|Split(b[3..])|, |Split(b)|, |b[3..]|, |b|);
    }
  }

  lemma {:induction false} SplitJoins(b: seq<byte>)
    requires |Split(b)| % 4 != 1
    ensures Joined(Split(b)) == b
  {
    hide Split, Joined;
    if |b| < 3 {
      ShortSplitJoins(b);
    } else {
      SplitLength(b[3..]);
      SplitJoins(b[3..]);
      OneGroup(b);
    }
  }

  lemma {:induction false} ShortSplitJoins(b: seq<byte>)
    requires |b| < 3 && |Split(b)| % 4 != 1
    ensures Joined(Split(b)) == b
  {
    hide First, Second, Third;
    if |b| == 1 {
      ThreeBytes(b[0], 0, 0);
    } else if |b| == 2 {
      ThreeBytes(b[0], b[1], 0);
    }
  }

  lemma OneGroup(b: seq<byte>)
    requires |b| >= 3 && |Split(b[3..])| % 4 != 1 && Joined(Split(b[3..])) == b[3..] && |Split(b)| % 4 != 1
    ensures Joined(Split(b)) == b
  {
    hide First, Second, Third;
    var v := Split(b);
    assert v[4..] == Split(b[3..]);
    assert Joined(v) == [First(v[0], v[1]), Second(v[1], v[2]), Third(v[2], v[3])] + Joined(v[4..]);
    ThreeBytes(b[0], b[1], b[2]);
    assert b == [b[0], b[1], b[2]] + b[3..];
  }

  lemma {:induction false} NothingToStrip(s: string)
    requires forall i :: 0 <= i < |s| ==> !Whitespace(s[i])
    ensures WithoutSpace(s) == s
  {
    if s != "" {
      NothingToStrip(s[1..]);
    }
  }

  lemma Unpads(s: string, pad: string)
    requires AllAlphabetic(s) && (|s| + |pad|) % 4 == 0 && pad in ["", "=", "=="]
    ensures WithoutPadding(WithoutSpace(s + pad)) == s
  {
    PaddingIsNoDigit(s, pad);
    hide AllAlphabetic, Whitespace, WithoutSpace;
    NothingToStrip(s + pad);
  }

  lemma PaddingIsNoDigit(s: string, pad: string)
    requires AllAlphabetic(s) && pad in ["", "=", "=="]
    ensures forall i :: 0 <= i < |s + pad| ==> !Whitespace((s + pad)[i]) && ((s + pad)[i] == '=' <==> i >= |s|)
  {
    forall i | 0 <= i < |s + pad| ensures !Whitespace((s + pad)[i]) && ((s + pad)[i] == '=' <==> i >= |s|) {
      if i < |s| {
        assert Alphabetic(s[i]);
      }
    }
  }

  lemma Base64RoundTrip(b: seq<byte>)
    ensures FromBase64(ToBase64(b)) == Some(b)
  {
    SplitLength(b);
    SplitJoins(b);
    var s := Letters(Split(b));
    Unpads(s, Padding(|b|));
    assert Values(s) == Split(b);
  }

  /** Table 1 of RFC 4648: three runs of consecutive characters, and two more. */
  lemma DigitsAreTheAlphabet(v: Sextet)
    ensures Digit(0) == 'A' && Digit(25) == 'Z' && Digit(26) == 'a' && Digit(51) == 'z' && Digit(52) == '0' && Digit(61) == '9'
    ensures Digit(62) == '+' && Digit(63) == '/'
    ensures v !in {25, 51, 61, 62, 63} ==> Digit(v + 1) as int == Digit(v) as int + 1
  {
  }

  /** The number that three bytes, or four digits, make with the most significant one first. */
  function OfBytes(x: int, y: int, z: int): int { x * 65536 + y * 256 + z }

  function OfDigits(v: int, w: int, x: int, y: int): int { v * 262144 + w * 4096 + x * 64 + y }

  /** Each group of three bytes is written as the digits of its 24-bit number, and an incomplete one as if filled up with zeros. */
  lemma GroupsKeepTheirBits(b: seq<byte>)
    requires b != []
    ensures var v := Split(b);
            if |b| == 1 then |v| == 2 && OfDigits(v[0], v[1], 0, 0) == OfBytes(b[0], 0, 0)
            else if |b| == 2 then |v| == 3 && OfDigits(v[0], v[1], v[2], 0) == OfBytes(b[0], b[1], 0)
            else |v| >= 4 && OfDigits(v[0], v[1], v[2], v[3]) == OfBytes(b[0], b[1], b[2]) && v[4..] == Split(b[3..])
  {
  }

  // ---- the size of decoded base64 ----

  /** Padded base64 without white space, whose first `n` characters are the digits. */
  ghost predicate PaddedAt(s: string, n: nat) {
    && |s| % 4 == 0 && |s| - 2 <= n <= |s| && AllAlphabetic(s[..n])
    && forall i :: n <= i < |s| ==> s[i] == '='
  }

  /** decodedBase64Bytes on a string that passes its test. */
  function DecodedBase64Bytes(s: string): int {
    var padding := if |s| >= 2 && s[|s| - 1] == '=' && s[|s| - 2] == '=' then 2 else if |s| >= 1 && s[|s| - 1] == '=' then 1 else 0;
    |s| / 4 * 3 - padding
  }

  lemma {:induction false} JoinedLength(v: seq<Sextet>)
    requires |v| % 4 != 1
    ensures |Joined(v)| == |v| / 4 * 3 + (if |v| % 4 == 0 then 0 else |v| % 4 - 1)
  {
    if |v| >= 4 {
      JoinedLength(v[4..]);
    }
  }

  /** The size that is announced without decoding is the size that decoding gives. */
  lemma AnnouncedSizeIsDecodedSize(s: string, n: nat)
    requires PaddedAt(s, n)
    ensures FromBase64(s).Some? && DecodedBase64Bytes(s) == |FromBase64(s).value|
  {
    hide AllAlphabetic, WithoutPadding, WithoutSpace, Joined, DecodedBase64Bytes;
    var digits, pad := s[..n], s[n..];
    assert s == digits + pad;
    assert pad == if |pad| == 0 then "" else if |pad| == 1 then "=" else "==";
    Unpads(digits, pad);
    JoinedLength(Values(digits));
    AnnouncedPadding(s, n);
  }

  /** A padded string ends in as many padding characters as its digits leave room for. */
  lemma AnnouncedPadding(s: string, n: nat)
    requires PaddedAt(s, n)
    ensures DecodedBase64Bytes(s) == |s| / 4 * 3 - (|s| - n)
  {
    if n > 0 {
      assert s[n - 1] == s[..n][n - 1];
      assert Alphabetic(s[..n][n - 1]);
    }
  }
}
