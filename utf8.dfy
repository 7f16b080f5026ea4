/** UTF-8 well-formedness (sections 3 and 4 of RFC 3629) and the byte-safe cut
    the truncate filter applies to every string it shortens. */
module Utf8 {

  /** One byte of a string's encoded form. */
  newtype byte = b: int | 0 <= b < 0x100

  /** A continuation byte: 10xxxxxx, the UTF8-tail rule of section 4 of RFC 3629. */
  predicate IsTail(b: byte) {
    0x80 <= b <= 0xBF
  }

  /** The number of bytes of the character that lead byte `b` starts, or 0 when `b`
      starts no well-formed character (a continuation byte, C0, C1 or F5..FF). */
  function LeadLength(b: byte): (m: nat)
    ensures m <= 4
    ensures m > 0 ==> !IsTail(b)
    ensures m == 1 <==> b < 0x80
  {
    if b <= 0x7F then 1
    else if 0xC2 <= b <= 0xDF then 2
    else if 0xE0 <= b <= 0xEF then 3
    else if 0xF0 <= b <= 0xF4 then 4
    else 0
  }

  /** The range allowed for the byte after `lead`: narrower than a plain tail for
      E0 and F0 (no overlong forms), ED (no surrogates) and F4 (nothing above U+10FFFF). */
  predicate SecondOk(lead: byte, b: byte) {
    if lead == 0xE0 then 0xA0 <= b <= 0xBF
    else if lead == 0xED then 0x80 <= b <= 0x9F
    else if lead == 0xF0 then 0x90 <= b <= 0xBF
    else if lead == 0xF4 then 0x80 <= b <= 0x8F
    else IsTail(b)
  }

  /** The length of the well-formed character that `s` starts with (the UTF8-char
      rule of section 4 of RFC 3629), or 0 when `s` does not start with one. */
  function CharLength(s: seq<byte>): (m: nat)
    ensures m <= |s| && m <= 4
    ensures m > 0 ==> m == LeadLength(s[0])
    ensures forall j :: 0 < j < m ==> IsTail(s[j])
  {
    if |s| == 0 then 0
    else
      var m := LeadLength(s[0]);
      if m == 0 || |s| < m then 0
      else if m >= 2 && !SecondOk(s[0], s[1]) then 0
      else if m >= 3 && !IsTail(s[2]) then 0
      else if m == 4 && !IsTail(s[3]) then 0
      else m
  }

  /** `s` is a sequence of whole, well-formed characters (UTF8-octets in RFC 3629). */
  predicate ValidUtf8(s: seq<byte>)
    ensures ValidUtf8(s) && |s| > 0 ==> LeadLength(s[0]) > 0 && !IsTail(s[0])
    decreases |s|
  {
    |s| == 0 || (CharLength(s) > 0 && ValidUtf8(s[CharLength(s)..]))
  }

  /** The first character of `s` is decided by its first bytes only: a prefix that
      holds the whole character starts with the same one, a shorter prefix with none. */
  lemma CharLengthOfPrefix(s: seq<byte>, k: nat)
    requires CharLength(s) > 0 && k <= |s|
    ensures k >= CharLength(s) ==> CharLength(s[..k]) == CharLength(s)
    ensures k < CharLength(s) ==> CharLength(s[..k]) == 0
  {
  }

  /** In well-formed text, the prefix of length `k` is well-formed exactly when `k` is
      a character boundary: the end of the text or a position holding no continuation byte. */
  lemma {:induction false} PrefixValidIff(s: seq<byte>, k: nat)
    requires ValidUtf8(s) && k <= |s|
    ensures ValidUtf8(s[..k]) <==> (k == |s| || !IsTail(s[k]))
    decreases |s|
  {
    if k == 0 {
      assert s[..k] == [];
    } else {
      var m := CharLength(s);
      var rest := s[m..];
      CharLengthOfPrefix(s, k);
      if k >= m {
        assert s[..k][m..] == rest[..k - m];
        PrefixValidIff(rest, k - m);
        if k < |s| {
          assert rest[k - m] == s[k];
        }
      }
    }
  }

  /** In well-formed text, every position has a character boundary at most 3 bytes
      before it, because no character is longer than 4 bytes. */
  lemma {:induction false} BoundaryNear(s: seq<byte>, i: nat)
    requires ValidUtf8(s) && i <= |s|
    ensures exists j :: 0 <= j <= i && i - 3 <= j && ValidUtf8(s[..j])
    decreases |s|
  {
    if i == 0 || |s| == 0 {
      assert s[..0] == [];
    } else {
      var m := CharLength(s);
      var rest := s[m..];
      if i < m {
        assert s[..0] == [];
      } else {
        BoundaryNear(rest, i - m);
        var j' :| 0 <= j' <= i - m && i - m - 3 <= j' && ValidUtf8(rest[..j']);
        var j := j' + m;
        CharLengthOfPrefix(s, j);
        assert s[..j][m..] == rest[..j'];
        assert ValidUtf8(s[..j]);
      }
    }
  }

  /** The length of the longest well-formed prefix of `s` that is at most `k` bytes long. */
  function LongestValidPrefix(s: seq<byte>, k: nat): (j: nat)
    requires k <= |s|
    ensures j <= k && ValidUtf8(s[..j])
    ensures forall i :: j < i <= k ==> !ValidUtf8(s[..i])
    decreases k
  {
    if k == 0 || ValidUtf8(s[..k]) then k else LongestValidPrefix(s, k - 1)
  }

  /** The byte-safe cut: the longest prefix of `s` of at most `limit` bytes that does not
      end inside a character; `s` itself when it already fits. */
  function Cut(s: seq<byte>, limit: nat): (r: seq<byte>)
    ensures |r| <= limit && |r| <= |s| && r == s[..|r|]
    ensures |s| <= limit ==> r == s
    ensures ValidUtf8(s) ==> ValidUtf8(r)
    ensures |s| > limit ==> ValidUtf8(r) && forall i :: |r| < i <= limit ==> !ValidUtf8(s[..i])
  {
    if |s| <= limit then s else s[..LongestValidPrefix(s, limit)]
  }

  /** On well-formed text the cut backs off at most 3 bytes from the limit, to the last
      character start at or below the limit: the byte right after the cut starts a
      character, and every later byte up to and including index `limit` is a
      continuation byte. */
  lemma CutBacksOffToBoundary(s: seq<byte>, limit: nat)
    requires ValidUtf8(s) && limit < |s|
    ensures limit - 3 <= |Cut(s, limit)|
    ensures !IsTail(s[|Cut(s, limit)|])
    ensures forall i :: |Cut(s, limit)| < i <= limit ==> IsTail(s[i])
  {
    var r := Cut(s, limit);
    BoundaryNear(s, limit);
    PrefixValidIff(s, |r|);
    forall i | |r| < i <= limit
      ensures IsTail(s[i])
    {
      PrefixValidIff(s, i);
    }
  }

  /** The start of a mixed Cyrillic and Latin text, "БCEi{": a limit of 5 keeps "БCEi"
      whole, while a limit of 1 would land inside the two-byte "Б" and so keeps nothing. */
  lemma CyrillicPrefixCut()
    ensures Cut([0xD0, 0x91, 0x43, 0x45, 0x69, 0x7B], 5) == [0xD0, 0x91, 0x43, 0x45, 0x69]
    ensures Cut([0xD0, 0x91, 0x43, 0x45, 0x69, 0x7B], 1) == []
  {
    var s: seq<byte> := [0xD0, 0x91, 0x43, 0x45, 0x69, 0x7B];
    assert ValidUtf8(s[..5]) by {
      assert s[..5][2..] == [0x43, 0x45, 0x69];
      assert [0x43, 0x45, 0x69][1..] == [0x45, 0x69];
      assert [0x45, 0x69][1..] == [0x69];
      assert [0x69][1..] == [];
    }
    assert !ValidUtf8(s[..1]);
  }

  /** Malformed input is not repaired: the cut keeps only the longest well-formed
      prefix, so a stray FF byte at the start loses the letters after it as well. */
  lemma MalformedInputCut()
    ensures Cut([0xFF, 0x61, 0x62], 2) == []
  {
    var s: seq<byte> := [0xFF, 0x61, 0x62];
    assert !ValidUtf8(s[..2]);
    assert !ValidUtf8(s[..1]);
  }
}
