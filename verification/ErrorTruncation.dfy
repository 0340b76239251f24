/**
 Truncating an error message to a number of bytes without cutting a UTF-8 character in two.
 Well-formed UTF-8 is the syntax of section 4 of RFC 3629.
 */
module ErrorTruncation {
  import opened Common

  type Byte = b: int | 0 <= b < 256

  /** A continuation byte: its two top bits are 10. */
  predicate Continues(b: Byte) {
    b / 64 == 2
  }

  predicate Continuations(s: seq<Byte>, from: nat, to: nat)
    requires from <= to <= |s|
  {
    forall i | from <= i < to :: Continues(s[i])
  }

  /** The number of bytes that the first byte of a character announces, 0 for an invalid one. */
  function Announced(b: Byte): nat {
    if b < 0x80 then 1 else if b < 0xC2 then 0 else if b < 0xE0 then 2 else if b < 0xF0 then 3 else if b < 0xF5 then 4
        else 0
  }

  /** No overlong forms, no surrogates, nothing above U+10FFFF. */
  predicate SecondByteFits(a: Byte, b: Byte) {
    match a
    case 0xE0 => b >= 0xA0
    case 0xED => b < 0xA0
    case 0xF0 => b >= 0x90
    case 0xF4 => b < 0x90
    case _ => true
  }

  /** A well-formed character starts the bytes. */
  predicate StartsWithChar(s: seq<Byte>) {
    && |s| > 0 && var n := Announced(s[0]);
    0 < n <= |s| && Continuations(s, 1, n) && (n > 1 ==> SecondByteFits(s[0], s[1]))
  }

  predicate Valid(s: seq<Byte>)
    decreases |s|
  {
    s == [] || (StartsWithChar(s) && Valid(s[Announced(s[0])..]))
  }

  /** The first byte announces its character: less of it is no character, more changes nothing. */
  lemma CharWithin(s: seq<Byte>, k: nat)
    requires StartsWithChar(s) && 0 < k <= |s|
    ensures StartsWithChar(s[..k]) <==> Announced(s[0]) <= k
    ensures !Continues(s[0])
  {
    assert s[..k][0] == s[0];
    if Announced(s[0]) <= k {
      assert forall i | 1 <= i < Announced(s[0]) :: s[..k][i] == s[i];
    }
  }

  /** A prefix of well-formed text is well-formed exactly when it ends where a character does. */
  lemma {:induction false} PrefixValidIff(s: seq<Byte>, k: nat)
    requires Valid(s) && k <= |s|
    ensures Valid(s[..k]) <==> k == |s| || !Continues(s[k])
    decreases |s|
  {
    if k == |s| {
      assert s[..k] == s;
    } else if k == 0 {
      CharWithin(s, 1);
    } else {
      var n := Announced(s[0]);
      CharWithin(s, k);
      if n <= k {
        PrefixValidIff(s[n..], k - n);
        assert s[..k][n..] == s[n..][..k - n];
        assert s[n..][k - n] == s[k];
      }
    }
  }

  lemma CharBefore(s: seq<Byte>, t: seq<Byte>)
    requires StartsWithChar(s)
    ensures StartsWithChar(s + t) && (s + t)[0] == s[0]
  {
    assert forall i | 0 <= i < |s| :: (s + t)[i] == s[i];
  }

  lemma {:induction false} ConcatValid(s: seq<Byte>, t: seq<Byte>)
    requires Valid(s) && Valid(t)
    ensures Valid(s + t)
    decreases |s|
  {
    if s == [] {
      assert s + t == t;
    } else {
      var n := Announced(s[0]);
      ConcatValid(s[n..], t);
      CharBefore(s, t);
      assert (s + t)[n..] == s[n..] + t;
    }
  }

  /** The suffix "...". */
  const SUFFIX: seq<Byte> := [0x2E, 0x2E, 0x2E]

  lemma SuffixValid()
    ensures Valid(SUFFIX)
  {
    assert SUFFIX[1..] == [0x2E, 0x2E] && SUFFIX[1..][1..] == [0x2E];
    assert Valid(SUFFIX[1..][1..]);
    assert Valid(SUFFIX[1..]);
  }

  /** The cut falls on the last character boundary at or below the room left. */
  ghost predicate LastBoundary(s: seq<Byte>, room: nat, k: nat)
    requires room < |s|
  {
    k <= room && (k == 0 || !Continues(s[k])) && forall j | k < j <= room :: Continues(s[j])
  }

  method TruncateError(err: Option<seq<Byte>>, maxBytes: int) returns (r: seq<Byte>)
    ensures |r| <= if maxBytes <= 0 then 0 else maxBytes
    ensures maxBytes <= 0 || err.None? ==> r == []
    ensures maxBytes > 0 && err.Some? && |err.value| <= maxBytes ==> r == err.value
    ensures maxBytes > 0 && err.Some? && |err.value| > maxBytes ==>
              if maxBytes < 3 then r == err.value[..maxBytes]
              else exists k: nat :: LastBoundary(err.value, maxBytes - 3, k) && r == err.value[..k] + [0x2E, 0x2E, 0x2E]
  {
    if maxBytes <= 0 || err.None? {
      return [];
    }
    var bytes := err.value;
    if |bytes| <= maxBytes {
      return bytes;
    }
    if maxBytes < |SUFFIX| {
      return bytes[..maxBytes];
    }
    var truncLen := maxBytes - |SUFFIX|;
    while truncLen > 0 && Continues(bytes[truncLen])
      invariant 0 <= truncLen <= maxBytes - 3
      invariant forall j | truncLen < j <= maxBytes - 3 :: Continues(bytes[j])
    {
      truncLen := truncLen - 1;
    }
    assert LastBoundary(bytes, maxBytes - 3, truncLen);
    return bytes[..truncLen] + SUFFIX;
  }

  /** A long well-formed message with room for the suffix: the result is well-formed, and what is
      kept is the longest well-formed prefix that leaves the room. */
  lemma TruncationKeepsCharacters(s: seq<Byte>, maxBytes: nat, k: nat)
    requires Valid(s) && 3 <= maxBytes < |s| && LastBoundary(s, maxBytes - 3, k)
    ensures Valid(s[..k]) && Valid(s[..k] + SUFFIX)
    ensures forall j | k < j <= maxBytes - 3 :: !Valid(s[..j])
  {
    PrefixValidIff(s, 0);
    PrefixValidIff(s, k);
    SuffixValid();
    ConcatValid(s[..k], SUFFIX);
    forall j | k < j <= maxBytes - 3 ensures !Valid(s[..j]) {
      PrefixValidIff(s, j);
    }
  }

  /** Below the length of the suffix the message is cut anywhere: the result is well-formed exactly
      when the cut happens to fall before a byte that starts a character. */
  lemma ShortLimitValidIff(s: seq<Byte>, maxBytes: nat)
    requires Valid(s) && 0 < maxBytes < 3 && maxBytes < |s|
    ensures Valid(s[..maxBytes]) <==> !Continues(s[maxBytes])
  {
    PrefixValidIff(s, maxBytes);
  }

  /** The euro sign and a letter, cut at two bytes. */
  lemma ShortLimitExample()
    ensures var s: seq<Byte> := [0xE2, 0x82, 0xAC, 0x41]; Valid(s) && !Valid(s[..2])
  {
    var s: seq<Byte> := [0xE2, 0x82, 0xAC, 0x41];
    assert s[3..] == [0x41] && s[3..][1..] == [];
    assert Valid(s[3..]);
    ShortLimitValidIff(s, 2);
  }
}
