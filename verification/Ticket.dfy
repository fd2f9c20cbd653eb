/**
 Signed cookie values: v1:<payload>:<signature>, the signature being an unpadded base64url
 text of a keyed hash.  The hash itself is arbitrary here.
 */
module Ticket {
  import opened WaitingRoom

  newtype byte = b: int | 0 <= b < 256

  const VERSION := "v1"

  /** The URL-safe alphabet: A-Z a-z 0-9 - _ */
  function Digit(n: int): (c: char)
    requires 0 <= n < 64
    ensures c != ':'
  {
    if n < 26 then ('A' as int + n) as char
    else if n < 52 then ('a' as int + (n - 26)) as char
    else if n < 62 then ('0' as int + (n - 52)) as char
    else if n == 62 then '-' else '_'
  }

  /** Three bytes are four digits of six bits; shorter tails get two or three, and no padding. */
  function RawUrlEncode(bs: seq<byte>): string {
    if |bs| == 0 then ""
    else
      var b0 := bs[0] as int;
      if |bs| == 1 then [Digit(b0 / 4), Digit(b0 % 4 * 16)]
      else
        var b1 := bs[1] as int;
        if |bs| == 2 then [Digit(b0 / 4), Digit(b0 % 4 * 16 + b1 / 16), Digit(b1 % 16 * 4)]
        else
          var b2 := bs[2] as int;
          Group(b0, b1, b2) + RawUrlEncode(bs[3..])
  }

  function Group(b0: int, b1: int, b2: int): (g: string)
    requires 0 <= b0 < 256 && 0 <= b1 < 256 && 0 <= b2 < 256
    ensures |g| == 4 && ':' !in g
  {
    [Digit(b0 / 4), Digit(b0 % 4 * 16 + b1 / 16), Digit(b1 % 16 * 4 + b2 / 64), Digit(b2 % 64)]
  }

  // ---------- the text spells the bytes ----------

  /** The six bits a letter stands for, by table 2 of RFC 4648. */
  function Value(c: char): int {
    if 'A' <= c <= 'Z' then c as int - 'A' as int
    else if 'a' <= c <= 'z' then 26 + (c as int - 'a' as int)
    else if '0' <= c <= '9' then 52 + (c as int - '0' as int)
    else if c == '-' then 62
    else if c == '_' then 63
    else -1
  }

  lemma ValueOfDigit(n: int)
    requires 0 <= n < 64
    ensures Value(Digit(n)) == n
  {
  }

  /** The byte at `i`, 0 beyond the end. */
  function ByteAt(bs: seq<byte>, i: nat): (b: nat)
    ensures b < 256
  {
    if i < |bs| then bs[i] as int else 0
  }

  /** The k-th group of 24 bits, as a number. */
  function Word(bs: seq<byte>, k: nat): (w: nat)
    ensures w < 16777216
  {
    ByteAt(bs, 3 * k) * 65536 + ByteAt(bs, 3 * k + 1) * 256 + ByteAt(bs, 3 * k + 2)
  }

  /** The j-th six bits of a 24-bit group, from the most significant. */
  function Sextet(w: nat, j: nat): (d: nat)
    requires j < 4
    ensures d < 64
  {
    (if j == 0 then w / 262144 else if j == 1 then w / 4096 else if j == 2 then w / 64 else w) % 64
  }

  /**
   Section 5 of RFC 4648 without padding: character `m` stands for the m-th six bits, and
   there are just enough of them for all the bytes.
   */
  lemma {:induction false} EncodeSpells(bs: seq<byte>, m: nat)
    ensures |RawUrlEncode(bs)| == (|bs| * 8 + 5) / 6
    ensures m < |RawUrlEncode(bs)| ==> Value(RawUrlEncode(bs)[m]) == Sextet(Word(bs, m / 4), m % 4)
    decreases |bs|
  {
    hide Digit, Value, Sextet, Word;
    EncodedLength(bs);
    if m < |RawUrlEncode(bs)| {
      if m < 4 {
        FirstGroup(bs, m);
      } else {
        EncodeSpells(bs[3..], m - 4);
        assert RawUrlEncode(bs)[m] == RawUrlEncode(bs[3..])[m - 4];
        WordOfRest(bs, m / 4);
      }
    }
  }

  lemma WordOfRest(bs: seq<byte>, k: nat)
    requires |bs| >= 3 && k >= 1
    ensures Word(bs[3..], k - 1) == Word(bs, k)
  {
  }

  lemma FirstGroup(bs: seq<byte>, m: nat)
    requires m < 4 && m < |RawUrlEncode(bs)|
    ensures Value(RawUrlEncode(bs)[m]) == Sextet(Word(bs, 0), m)
  {
    hide Digit, Sextet, Value;
    GroupSextets(ByteAt(bs, 0), ByteAt(bs, 1), ByteAt(bs, 2));
    ValueOfDigit(Sextet(Word(bs, 0), m));
  }

  lemma GroupSextets(b0: nat, b1: nat, b2: nat)
    requires b0 < 256 && b1 < 256 && b2 < 256
    ensures var w := b0 * 65536 + b1 * 256 + b2;
      && Sextet(w, 0) == b0 / 4 && Sextet(w, 1) == b0 % 4 * 16 + b1 / 16
      && Sextet(w, 2) == b1 % 16 * 4 + b2 / 64 && Sextet(w, 3) == b2 % 64
  {
    hide Sextet;
    assert (b0 * 256 + b1) % 16 == b1 % 16;
    HighBits(b0, b1 * 256 + b2);
    MiddleBits(b0, b1, b2);
    LowBits(b0 * 256 + b1, b2);
  }

  lemma HighBits(b0: nat, rest: nat)
    requires b0 < 256 && rest < 65536
    ensures Sextet(b0 * 65536 + rest, 0) == b0 / 4
  {
    assert (b0 * 65536 + rest) / 262144 == b0 / 4;
  }

  lemma MiddleBits(b0: nat, b1: nat, b2: nat)
    requires b0 < 256 && b1 < 256 && b2 < 256
    ensures Sextet(b0 * 65536 + b1 * 256 + b2, 1) == b0 % 4 * 16 + b1 / 16
  {
    assert (b0 * 65536 + b1 * 256 + b2) / 4096 == b0 * 16 + b1 / 16;
  }

  /** `high` are the two upper bytes. */
  lemma LowBits(high: nat, b2: nat)
    requires high < 65536 && b2 < 256
    ensures Sextet(high * 256 + b2, 2) == high % 16 * 4 + b2 / 64
    ensures Sextet(high * 256 + b2, 3) == b2 % 64
  {
    assert (high * 256 + b2) / 64 == high * 4 + b2 / 64;
  }

  /** Encoded text never contains the separator. */
  lemma {:induction false} EncodedHasNoColon(bs: seq<byte>)
    ensures ':' !in RawUrlEncode(bs)
  {
    if |bs| >= 3 {
      EncodedHasNoColon(bs[3..]);
    }
  }

  /** Different hashes have different texts, so comparing texts compares hashes. */
  lemma {:induction false} EncodeInjective(a: seq<byte>, b: seq<byte>)
    requires RawUrlEncode(a) == RawUrlEncode(b)
    ensures a == b
    decreases |a|
  {
    hide Digit, Group;
    EncodedLength(a);
    EncodedLength(b);
    assert |a| == |b|;
    var x, y := RawUrlEncode(a), RawUrlEncode(b);
    if |a| >= 3 {
      assert x[..4] == Group(a[0] as int, a[1] as int, a[2] as int) && x[4..] == RawUrlEncode(a[3..]);
      assert y[..4] == Group(b[0] as int, b[1] as int, b[2] as int) && y[4..] == RawUrlEncode(b[3..]);
      GroupInjective(a[0] as int, a[1] as int, a[2] as int, b[0] as int, b[1] as int, b[2] as int);
      EncodeInjective(a[3..], b[3..]);
      assert a == a[..3] + a[3..] && b == b[..3] + b[3..];
    } else if |a| == 2 {
      assert x[0] == y[0] && x[1] == y[1] && x[2] == y[2];
      BytesInjective(a[0] as int, a[1] as int, 0, b[0] as int, b[1] as int, 0);
    } else if |a| == 1 {
      assert x[0] == y[0] && x[1] == y[1];
      BytesInjective(a[0] as int, 0, 0, b[0] as int, 0, 0);
    }
  }

  /** Four digits determine three bytes. */
  lemma BytesInjective(a0: int, a1: int, a2: int, b0: int, b1: int, b2: int)
    requires 0 <= a0 < 256 && 0 <= a1 < 256 && 0 <= a2 < 256
    requires 0 <= b0 < 256 && 0 <= b1 < 256 && 0 <= b2 < 256
    requires Digit(a0 / 4) == Digit(b0 / 4)
    requires Digit(a0 % 4 * 16 + a1 / 16) == Digit(b0 % 4 * 16 + b1 / 16)
    requires Digit(a1 % 16 * 4 + a2 / 64) == Digit(b1 % 16 * 4 + b2 / 64)
    requires Digit(a2 % 64) == Digit(b2 % 64)
    ensures a0 == b0 && a1 == b1 && a2 == b2
  {
    ValueOfDigit(a0 / 4);
    ValueOfDigit(b0 / 4);
    ValueOfDigit(a0 % 4 * 16 + a1 / 16);
    ValueOfDigit(b0 % 4 * 16 + b1 / 16);
    ValueOfDigit(a1 % 16 * 4 + a2 / 64);
    ValueOfDigit(b1 % 16 * 4 + b2 / 64);
    ValueOfDigit(a2 % 64);
    ValueOfDigit(b2 % 64);
  }

  lemma GroupInjective(a0: int, a1: int, a2: int, b0: int, b1: int, b2: int)
    requires 0 <= a0 < 256 && 0 <= a1 < 256 && 0 <= a2 < 256
    requires 0 <= b0 < 256 && 0 <= b1 < 256 && 0 <= b2 < 256
    requires Group(a0, a1, a2) == Group(b0, b1, b2)
    ensures a0 == b0 && a1 == b1 && a2 == b2
  {
    hide Digit;
    var x, y := Group(a0, a1, a2), Group(b0, b1, b2);
    assert x[0] == y[0] && x[1] == y[1] && x[2] == y[2] && x[3] == y[3];
    BytesInjective(a0, a1, a2, b0, b1, b2);
  }

  lemma {:induction false} EncodedLength(bs: seq<byte>)
    ensures |RawUrlEncode(bs)| == (|bs| * 4 + 2) / 3
    decreases |bs|
  {
    if |bs| >= 3 {
      EncodedLength(bs[3..]);
    }
  }

  /** A signer: its secret and the keyed hash (secret, message) it uses. */
  datatype Signer = Signer(secret: string, hash: (string, string) -> seq<byte>) {
    function Mac(data: string): string {
      RawUrlEncode(hash(secret, data))
    }

    function Sign(payload: string): string {
      var prefix := VERSION + ":" + payload;
      prefix + ":" + Mac(prefix)
    }

    function Verify(value: string): Option<string> {
      var i := LastColon(value);
      if i < 0 then None
      else
        var prefix, sig := value[..i], value[i + 1..];
        if !HasPrefix(prefix, VERSION + ":") then None
        else if sig != Mac(prefix) then None
        else Some(prefix[|VERSION + ":"|..])
    }

    /** Verify accepts exactly the signed values, and returns what was signed. */
    lemma VerifyInvertsSign(value: string, payload: string)
      ensures Verify(value) == Some(payload) <==> value == Sign(payload)
    {
      var head := VERSION + ":";
      if value == Sign(payload) {
        var prefix := head + payload;
        EncodedHasNoColon(hash(secret, prefix));
        LastColonAt(prefix, Mac(prefix));
        assert value == prefix + ":" + Mac(prefix);
        assert value[..|prefix|] == prefix && value[|prefix| + 1..] == Mac(prefix);
        assert prefix[..|head|] == head && prefix[|head|..] == payload;
      }
      if Verify(value) == Some(payload) {
        var i := LastColon(value);
        var prefix := value[..i];
        assert prefix == prefix[..|head|] + prefix[|head|..];
        assert prefix == head + payload;
        assert value == value[..i] + [value[i]] + value[i + 1..];
      }
    }

    /** A value whose signature encodes `h` is accepted exactly if `h` is the hash of what it signs. */
    lemma VerifyChecksHash(payload: string, h: seq<byte>)
      ensures var prefix := "v1:" + payload;
        Verify(prefix + ":" + RawUrlEncode(h)) == Some(payload) <==> h == hash(secret, prefix)
    {
      var prefix := VERSION + ":" + payload;
      assert VERSION + ":" == "v1:";
      var value := prefix + ":" + RawUrlEncode(h);
      VerifyInvertsSign(value, payload);
      if value == Sign(payload) {
        assert value[|prefix| + 1..] == RawUrlEncode(h) && Sign(payload)[|prefix| + 1..] == Mac(prefix);
        EncodeInjective(h, hash(secret, prefix));
      }
    }
  }

  predicate HasPrefix(s: string, p: string) {
    |p| <= |s| && s[..|p|] == p
  }

  /** Index of the last colon, -1 when there is none. */
  function LastColon(s: string): (i: int)
    ensures -1 <= i < |s|
    ensures i >= 0 ==> s[i] == ':'
    ensures forall k :: i < k < |s| ==> s[k] != ':'
  {
    if s == "" then -1
    else if s[|s| - 1] == ':' then |s| - 1
    else LastColon(s[..|s| - 1])
  }

  lemma LastColonAt(prefix: string, sig: string)
    requires ':' !in sig
    ensures LastColon(prefix + ":" + sig) == |prefix|
  {
    var s := prefix + ":" + sig;
    assert s == prefix + [':'] + sig;
    assert s[|prefix|] == ':';
    assert forall k :: |prefix| < k < |s| ==> s[k] in sig;
  }
}
