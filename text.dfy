/**
 * The Python string built-ins the settlement code relies on: substring test
 * (`in`), `lower`/`upper` (ASCII letters), `replace`, `strip`, `join` and
 * `str` of an integer, each with the fact about it that the callers need.
 */
module Text {

  // ---------------------------------------------------------------- substring

  /** `needle` occurs in `hay` at index `i`. */
  predicate OccursAt(needle: string, hay: string, i: int)
  {
    0 <= i && i + |needle| <= |hay| && hay[i..i + |needle|] == needle
  }

  lemma OccursShift(needle: string, hay: string, i: int)
    requires |hay| > 0 && 0 <= i
    ensures OccursAt(needle, hay[1..], i) <==> OccursAt(needle, hay, i + 1)
  {
    if 0 <= i && i + |needle| <= |hay[1..]| {
      assert hay[1..][i..i + |needle|] == hay[i + 1..i + 1 + |needle|];
    }
  }

  /** Python's `needle in hay`: a left-to-right scan for an occurrence. */
  function Contains(needle: string, hay: string): (b: bool)
    ensures b <==> exists i :: OccursAt(needle, hay, i)
    decreases |hay|
  {
    if |hay| < |needle| then false
    else if hay[..|needle|] == needle then assert OccursAt(needle, hay, 0); true
    else
      var rest := Contains(needle, hay[1..]);
      assert rest ==> exists i :: OccursAt(needle, hay, i) by {
        if rest {
          var i :| OccursAt(needle, hay[1..], i);
          OccursShift(needle, hay, i);
        }
      }
      assert (exists i :: OccursAt(needle, hay, i)) ==> rest by {
        if exists i :: OccursAt(needle, hay, i) {
          var i :| OccursAt(needle, hay, i);
          assert i != 0;
          OccursShift(needle, hay, i - 1);
        }
      }
      rest
  }

  /** An occurrence inside a piece of a string is an occurrence in the string. */
  lemma ContainsWithin(needle: string, piece: string, s: string, at: int)
    requires OccursAt(piece, s, at)
    requires Contains(needle, piece)
    ensures Contains(needle, s)
  {
    var i :| OccursAt(needle, piece, i);
    forall k | 0 <= k < |needle|
      ensures s[at + i + k] == needle[k]
    {
      assert piece[i..i + |needle|][k] == needle[k];
      assert s[at..at + |piece|][i + k] == piece[i + k];
    }
    assert s[at + i..at + i + |needle|] == needle;
    assert OccursAt(needle, s, at + i);
  }

  // -------------------------------------------------------------- case mapping

  /** `str.lower` on one character, for the ASCII letters. */
  function LowerChar(c: char): char
  {
    if 'A' <= c <= 'Z' then (c as int + 32) as char else c
  }

  /** `str.upper` on one character, for the ASCII letters. */
  function UpperChar(c: char): char
  {
    if 'a' <= c <= 'z' then (c as int - 32) as char else c
  }

  function Lower(s: string): string
  {
    seq(|s|, i requires 0 <= i < |s| => LowerChar(s[i]))
  }

  function Upper(s: string): string
  {
    seq(|s|, i requires 0 <= i < |s| => UpperChar(s[i]))
  }

  /** Lower-casing forgets any earlier upper-casing: keyword tests on lower-cased text are case-blind. */
  lemma LowerOfUpper(s: string)
    ensures Lower(Upper(s)) == Lower(s)
  {
    forall i | 0 <= i < |s|
      ensures Lower(Upper(s))[i] == Lower(s)[i]
    {
      var c := s[i];
      if 'a' <= c <= 'z' {
        assert UpperChar(c) as int == c as int - 32;
      }
    }
  }

  /** Lower-casing keeps every occurrence in place. */
  lemma LowerKeepsOccurrence(piece: string, s: string, at: int)
    requires OccursAt(piece, s, at)
    ensures OccursAt(Lower(piece), Lower(s), at)
  {
    assert Lower(s)[at..at + |piece|] == Lower(piece) by {
      forall k | 0 <= k < |piece|
        ensures Lower(s)[at..at + |piece|][k] == Lower(piece)[k]
      {
        assert s[at + k] == piece[k];
      }
    }
  }

  /** The three pieces of a concatenation can be sliced back out. */
  lemma ConcatPieces(a: string, b: string, c: string)
    ensures (a + b + c)[..|a|] == a
    ensures (a + b + c)[|a|..|a| + |b|] == b
    ensures (a + b + c)[|a| + |b|..] == c
  {
  }

  /** The five pieces of a concatenation can be sliced back out. */
  lemma ConcatFive(a: string, b: string, c: string, d: string, e: string)
    ensures var s := a + b + c + d + e;
            s[..|a|] == a && s[|a|..|a| + |b|] == b && s[|a| + |b|..|s| - |e| - |d|] == c
            && s[|s| - |e| - |d|..|s| - |e|] == d && s[|s| - |e|..] == e
  {
    var s := a + b + c + d + e;
    ConcatPieces(a + b, c, d + e);
    ConcatPieces(a, b, c + d + e);
    ConcatPieces(a + b + c, d, e);
  }

  // ------------------------------------------------------------------ replace

  /**
   * Python's `s.replace(pat, rep)` for a non-empty `pat`: scan from the left,
   * replace each occurrence and resume after it, so occurrences never overlap.
   */
  function Replace(s: string, pat: string, rep: string): string
    requires |pat| > 0
    decreases |s|
  {
    if |s| < |pat| then s
    else if s[..|pat|] == pat then rep + Replace(s[|pat|..], pat, rep)
    else [s[0]] + Replace(s[1..], pat, rep)
  }

  /** Replacing a pattern that does not occur leaves the string unchanged. */
  lemma {:induction false} ReplaceAbsent(s: string, pat: string, rep: string)
    requires |pat| > 0
    requires !Contains(pat, s)
    ensures Replace(s, pat, rep) == s
    decreases |s|
  {
    if |s| >= |pat| {
      assert !OccursAt(pat, s, 0);
      assert !Contains(pat, s[1..]) by {
        forall i | 0 <= i
          ensures !OccursAt(pat, s[1..], i)
        {
          OccursShift(pat, s, i);
        }
      }
      ReplaceAbsent(s[1..], pat, rep);
      assert [s[0]] + s[1..] == s;
    }
  }

  /** A Markdown code fence, and the one that opens a JSON block. */
  const Fence := "```"
  const JsonFence := "```json"

  /** Whatever holds a JSON fence holds a fence. */
  lemma JsonFenceHoldsFence(s: string)
    ensures Contains(JsonFence, s) ==> Contains(Fence, s)
  {
    if Contains(JsonFence, s) {
      var at :| OccursAt(JsonFence, s, at);
      assert JsonFence[..3] == Fence;
      assert OccursAt(Fence, JsonFence, 0);
      ContainsWithin(Fence, JsonFence, s, at);
    }
  }

  /** A closing fence after the text is removed whole: it never pairs with the text's own backticks to survive. */
  lemma {:induction false} ReplaceFenceDropsTrailing(c: string)
    ensures Replace(c + Fence, Fence, "") == Replace(c, Fence, "")
    decreases |c|
  {
    var s := c + Fence;
    if |c| == 0 {
      assert s[..3] == Fence && s[3..] == "";
    } else if s[..3] == Fence {
      if |c| >= 3 {
        assert c[..3] == Fence && s[3..] == c[3..] + Fence;
        ReplaceFenceDropsTrailing(c[3..]);
      } else {
        // c is made of backticks only, and so is what follows the match
        assert forall k :: 0 <= k < |c| ==> c[k] == s[k] == '`';
        assert forall k :: 0 <= k < |c| ==> s[3..][k] == s[3 + k] == '`';
        assert s[3..] == c;
      }
    } else {
      assert s[1..] == c[1..] + Fence;
      ReplaceFenceDropsTrailing(c[1..]);
      if |c| < 3 {
        assert Replace(c[1..], Fence, "") == c[1..];
        assert [c[0]] + c[1..] == c;
      } else {
        assert c[..3] == s[..3];
      }
    }
  }

  /** A trailing fence cannot complete a "```json", which ends in a letter; the scan passes it through. */
  lemma {:induction false} ReplaceJsonFenceKeepsTrailing(b: string)
    ensures Replace(b + Fence, JsonFence, "") == Replace(b, JsonFence, "") + Fence
    decreases |b|
  {
    var s := b + Fence;
    if |s| < 7 {
      assert Replace(b, JsonFence, "") == b;
    } else if s[..7] == JsonFence {
      assert s[6] == JsonFence[6] == 'n';
      assert b[..7] == JsonFence && s[7..] == b[7..] + Fence;
      ReplaceJsonFenceKeepsTrailing(b[7..]);
    } else {
      assert s[1..] == b[1..] + Fence;
      ReplaceJsonFenceKeepsTrailing(b[1..]);
      if |b| < 7 {
        assert Replace(b[1..], JsonFence, "") == b[1..];
        assert [b[0]] + b[1..] == b;
      } else {
        assert b[..7] == s[..7];
      }
    }
  }

  lemma RemoveFenceKeepsLeadingTick(t: string)
    requires |Replace(t, Fence, "")| >= 1 && Replace(t, Fence, "")[0] == '`'
    ensures |t| >= 1 && t[0] == '`'
  {
  }

  lemma RemoveFenceKeepsLeadingTicks(t: string)
    requires |Replace(t, Fence, "")| >= 2
    requires Replace(t, Fence, "")[0] == '`' && Replace(t, Fence, "")[1] == '`'
    ensures |t| >= 2 && t[0] == '`' && t[1] == '`'
  {
    if |t| >= 3 && t[..3] != Fence {
      RemoveFenceKeepsLeadingTick(t[1..]);
    }
  }

  /** Deleting every fence (`replace("```", "")`) leaves none behind, not even one formed across a deletion. */
  lemma {:induction false} RemoveFenceLeavesNone(t: string)
    ensures !Contains(Fence, Replace(t, Fence, ""))
    decreases |t|
  {
    var r := Replace(t, Fence, "");
    if |t| < 3 {
      assert !OccursAt(Fence, r, 0);
    } else if t[..3] == Fence {
      RemoveFenceLeavesNone(t[3..]);
      assert r == Replace(t[3..], Fence, "");
    } else {
      var rest := Replace(t[1..], Fence, "");
      RemoveFenceLeavesNone(t[1..]);
      assert r == [t[0]] + rest;
      forall i | 0 <= i
        ensures !OccursAt(Fence, r, i)
      {
        if i == 0 {
          if |rest| >= 2 && rest[0] == '`' && rest[1] == '`' {
            RemoveFenceKeepsLeadingTicks(t[1..]);
          }
        } else {
          OccursShift(Fence, r, i - 1);
          assert r[1..] == rest;
        }
      }
    }
  }

  // -------------------------------------------------------------------- strip

  /** Python's `str.isspace` for one character. */
  predicate IsSpace(c: char)
  {
    c == ' ' || '\t' <= c <= '\r' || '\U{1C}' <= c <= '\U{1F}' || c == '\U{85}' || c == '\U{A0}'
    || c == '\U{1680}' || '\U{2000}' <= c <= '\U{200A}' || c == '\U{2028}' || c == '\U{2029}'
    || c == '\U{202F}' || c == '\U{205F}' || c == '\U{3000}'
  }

  predicate AllSpace(s: string)
  {
    forall k :: 0 <= k < |s| ==> IsSpace(s[k])
  }

  /** Index of the first non-whitespace character at or after `i`, or `|s|`. */
  function SkipSpaceFrom(s: string, i: nat): (r: nat)
    requires i <= |s|
    ensures i <= r <= |s| && (r < |s| ==> !IsSpace(s[r]))
    ensures forall k :: i <= k < r ==> IsSpace(s[k])
    decreases |s| - i
  {
    if i < |s| && IsSpace(s[i]) then SkipSpaceFrom(s, i + 1) else i
  }

  /** End of `s[lo..j]` once its trailing whitespace is cut off. */
  function SkipSpaceBack(s: string, lo: nat, j: nat): (r: nat)
    requires lo <= j <= |s|
    ensures lo <= r <= j && (lo < r ==> !IsSpace(s[r - 1]))
    ensures forall k :: r <= k < j ==> IsSpace(s[k])
    decreases j
  {
    if lo < j && IsSpace(s[j - 1]) then SkipSpaceBack(s, lo, j - 1) else j
  }

  /**
   * Python's `str.strip()`: the result sits inside `s` between two runs of
   * whitespace and neither starts nor ends with whitespace.
   */
  function Strip(s: string): (r: string)
    ensures r == [] || (!IsSpace(r[0]) && !IsSpace(r[|r| - 1]))
    ensures exists at :: OccursAt(r, s, at) && AllSpace(s[..at]) && AllSpace(s[at + |r|..])
  {
    var i := SkipSpaceFrom(s, 0);
    var j := SkipSpaceBack(s, i, |s|);
    assert OccursAt(s[i..j], s, i);
    assert AllSpace(s[..i]) && AllSpace(s[j..]);
    s[i..j]
  }

  /** Nothing that `Strip` returns can contain what its argument does not. */
  lemma StripKeepsAbsence(needle: string, s: string)
    requires !Contains(needle, s)
    ensures !Contains(needle, Strip(s))
  {
    var r := Strip(s);
    var at :| OccursAt(r, s, at) && AllSpace(s[..at]) && AllSpace(s[at + |r|..]);
    if Contains(needle, r) {
      ContainsWithin(needle, r, s, at);
    }
  }

  // --------------------------------------------------------------------- join

  /** Python's `sep.join(parts)`. */
  function Join(sep: string, parts: seq<string>): string
    decreases |parts|
  {
    if |parts| == 0 then ""
    else if |parts| == 1 then parts[0]
    else parts[0] + sep + Join(sep, parts[1..])
  }

  /** Joining two non-empty lists puts one separator between their joins. */
  lemma {:induction false} JoinAppend(sep: string, a: seq<string>, b: seq<string>)
    requires |a| > 0 && |b| > 0
    ensures Join(sep, a + b) == Join(sep, a) + sep + Join(sep, b)
    decreases |a|
  {
    if |a| == 1 {
      assert (a + b)[1..] == b;
    } else {
      assert (a + b)[1..] == a[1..] + b;
      JoinAppend(sep, a[1..], b);
    }
  }

  /** Every part appears, whole, in the joined text. */
  lemma {:induction false} JoinKeepsPart(sep: string, parts: seq<string>, k: int)
    requires 0 <= k < |parts|
    ensures exists at :: OccursAt(parts[k], Join(sep, parts), at)
    decreases |parts|
  {
    var j := Join(sep, parts);
    if |parts| == 1 {
      assert OccursAt(parts[k], j, 0);
    } else if k == 0 {
      assert j[..|parts[0]|] == parts[0];
      assert OccursAt(parts[k], j, 0);
    } else {
      JoinKeepsPart(sep, parts[1..], k - 1);
      var tail := Join(sep, parts[1..]);
      var at :| OccursAt(parts[k], tail, at);
      var off := |parts[0]| + |sep|;
      assert j[off..] == tail;
      assert j[off + at..off + at + |parts[k]|] == tail[at..at + |parts[k]|];
      assert OccursAt(parts[k], j, off + at);
    }
  }

  // -------------------------------------------------------------- str(int)

  function DigitChar(d: int): char
    requires 0 <= d < 10
  {
    ('0' as int + d) as char
  }

  function DigitValue(c: char): int
  {
    c as int - '0' as int
  }

  /** Decimal digits of a natural number, most significant first, no leading zero. */
  function NatToString(n: nat): string
    decreases n
  {
    if n < 10 then [DigitChar(n)] else NatToString(n / 10) + [DigitChar(n % 10)]
  }

  /** Python's `str(n)` (and an f-string's `{n}`) for an integer. */
  function IntToString(n: int): string
  {
    if n < 0 then "-" + NatToString(-n) else NatToString(n)
  }

  /** Reads a string of decimal digits back as a number. */
  function ParseNat(s: string): int
    decreases |s|
  {
    if |s| == 0 then 0 else ParseNat(s[..|s| - 1]) * 10 + DigitValue(s[|s| - 1])
  }

  function ParseInt(s: string): int
  {
    if |s| > 0 && s[0] == '-' then -ParseNat(s[1..]) else ParseNat(s)
  }

  predicate IsDigit(c: char)
  {
    '0' <= c <= '9'
  }

  lemma {:induction false} NatToStringRoundTrip(n: nat)
    ensures |NatToString(n)| > 0 && IsDigit(NatToString(n)[0])
    ensures ParseNat(NatToString(n)) == n
    decreases n
  {
    if n >= 10 {
      NatToStringRoundTrip(n / 10);
      var s := NatToString(n / 10) + [DigitChar(n % 10)];
      assert s[..|s| - 1] == NatToString(n / 10);
    }
  }

  /** `str(n)` is read back as `n`: the decimal text loses nothing. */
  lemma IntToStringRoundTrip(n: int)
    ensures ParseInt(IntToString(n)) == n
  {
    if n < 0 {
      NatToStringRoundTrip(-n);
      assert ("-" + NatToString(-n))[1..] == NatToString(-n);
    } else {
      NatToStringRoundTrip(n);
    }
  }
}
