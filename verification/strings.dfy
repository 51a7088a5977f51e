/** The Python `str` operations the core relies on, as total functions on
    `string`: `lower`, `strip`, `startswith`, `in`, `split`, `join`, slicing
    with a suffix, and `str(n)` for natural numbers. */
module PyStrings {
  import opened Wrappers

  // ---------------------------------------------------------------------------
  // Characters
  // ---------------------------------------------------------------------------

  /** `str.lower()` on one character; only the ASCII letters are folded. */
  function LowerChar(c: char): char {
    if 'A' <= c <= 'Z' then (c as int + 32) as char else c
  }

  function Lower(s: string): (r: string)
    ensures |r| == |s|
    ensures forall i :: 0 <= i < |s| ==> r[i] == LowerChar(s[i])
  {
    seq(|s|, i requires 0 <= i < |s| => LowerChar(s[i]))
  }

  /** The characters Python's `str.isspace()` accepts, i.e. those a bare
      `str.strip()` removes. */
  predicate IsSpace(c: char) {
    || c == ' '
    || '\t' <= c <= '\r'
    || '\U{1C}' <= c <= '\U{1F}'
    || c == '\U{85}' || c == '\U{A0}' || c == '\U{1680}'
    || '\U{2000}' <= c <= '\U{200A}'
    || c == '\U{2028}' || c == '\U{2029}' || c == '\U{202F}'
    || c == '\U{205F}' || c == '\U{3000}'
  }

  predicate IsDigit(c: char) {
    '0' <= c <= '9'
  }

  // ---------------------------------------------------------------------------
  // strip
  // ---------------------------------------------------------------------------

  function TrimStart(s: string, drop: char -> bool): (r: string)
    ensures |r| <= |s| && r == s[|s| - |r|..]
    ensures forall i :: 0 <= i < |s| - |r| ==> drop(s[i])
    ensures |r| > 0 ==> !drop(r[0])
    decreases |s|
  {
    if |s| > 0 && drop(s[0]) then TrimStart(s[1..], drop) else s
  }

  function TrimEnd(s: string, drop: char -> bool): (r: string)
    ensures |r| <= |s| && r == s[..|r|]
    ensures forall i :: |r| <= i < |s| ==> drop(s[i])
    ensures |r| > 0 ==> !drop(r[|r| - 1])
    decreases |s|
  {
    if |s| > 0 && drop(s[|s| - 1]) then TrimEnd(s[..|s| - 1], drop) else s
  }

  /** Removes the characters satisfying `drop` from both ends. */
  function StripBy(s: string, drop: char -> bool): (r: string)
    ensures |r| <= |s|
    ensures |r| > 0 ==> !drop(r[0]) && !drop(r[|r| - 1])
    ensures (|s| == 0 || (!drop(s[0]) && !drop(s[|s| - 1]))) ==> r == s
  {
    TrimEnd(TrimStart(s, drop), drop)
  }

  /** Stripping only removes characters: what is left occurs in the input. */
  lemma StripInside(s: string, drop: char -> bool)
    ensures forall c :: c in StripBy(s, drop) ==> c in s
  {
    var t := TrimStart(s, drop);
    var r := TrimEnd(t, drop);
    forall c | c in r
      ensures c in s
    {
      var i :| 0 <= i < |r| && r[i] == c;
      assert r[i] == t[i];
      assert t[i] == s[|s| - |t| + i];
    }
  }

  /** One droppable character in front of text whose ends are kept is all
      that stripping removes. */
  lemma StripLeading(c: char, s: string, drop: char -> bool)
    requires drop(c) && |s| > 0 && !drop(s[0]) && !drop(s[|s| - 1])
    ensures StripBy([c] + s, drop) == s
  {
    assert ([c] + s)[1..] == s;
    assert TrimStart(s, drop) == s;
    assert TrimStart([c] + s, drop) == s;
  }

  /** `s.strip()` */
  function Strip(s: string): string {
    StripBy(s, IsSpace)
  }

  /** `s.strip(c)` for a one-character argument: only `c` is removed, not
      whitespace. */
  function StripChar(s: string, c: char): string {
    StripBy(s, x => x == c)
  }

  // ---------------------------------------------------------------------------
  // startswith, in, find
  // ---------------------------------------------------------------------------

  predicate StartsWith(s: string, prefix: string) {
    |prefix| <= |s| && s[..|prefix|] == prefix
  }

  /** `s.startswith(tuple(prefixes))` */
  predicate StartsWithAny(s: string, prefixes: seq<string>) {
    exists i :: 0 <= i < |prefixes| && StartsWith(s, prefixes[i])
  }

  /** `pat` occurs in `s` at index `i`. */
  ghost predicate OccursAt(s: string, pat: string, i: int) {
    0 <= i && i + |pat| <= |s| && s[i..i + |pat|] == pat
  }

  /** The first index at or after `k` where `pat` occurs in `s`. */
  function FindFrom(s: string, pat: string, k: nat): (r: Option<nat>)
    requires k <= |s|
    ensures r.Some? ==> k <= r.value && OccursAt(s, pat, r.value)
    ensures r.Some? ==> forall j :: k <= j < r.value ==> !OccursAt(s, pat, j)
    ensures r.None? ==> forall j :: k <= j ==> !OccursAt(s, pat, j)
    decreases |s| - k
  {
    if k + |pat| > |s| then None
    else if s[k..k + |pat|] == pat then Some(k)
    else FindFrom(s, pat, k + 1)
  }

  /** `s.find(pat)`, with `None` for Python's `-1`. */
  function Find(s: string, pat: string): (r: Option<nat>)
    ensures r.Some? ==> OccursAt(s, pat, r.value)
    ensures r.Some? ==> forall j :: 0 <= j < r.value ==> !OccursAt(s, pat, j)
    ensures r.None? ==> forall j :: !OccursAt(s, pat, j)
  {
    FindFrom(s, pat, 0)
  }

  /** `pat in s` */
  predicate Contains(s: string, pat: string)
    ensures Contains(s, pat) <==> exists i :: OccursAt(s, pat, i)
  {
    Find(s, pat).Some?
  }

  lemma ContainsChar(s: string, c: char)
    ensures Contains(s, [c]) <==> c in s
  {
    if c in s {
      var i :| 0 <= i < |s| && s[i] == c;
      assert OccursAt(s, [c], i);
    }
    if Contains(s, [c]) {
      var i :| OccursAt(s, [c], i);
      assert s[i..i + 1] == [c];
      assert s[i] == c;
    }
  }

  // ---------------------------------------------------------------------------
  // split and join
  // ---------------------------------------------------------------------------

  /** `s.split(sep)` for a non-empty separator: the pieces between the
      non-overlapping occurrences of `sep`, scanned from the left. */
  function Split(s: string, sep: string): (r: seq<string>)
    requires |sep| > 0
    ensures |r| >= 1
    decreases |s|
  {
    match Find(s, sep)
    case None => [s]
    case Some(i) => [s[..i]] + Split(s[i + |sep|..], sep)
  }

  /** `sep.join(parts)` */
  function Join(parts: seq<string>, sep: string): string {
    if |parts| == 0 then ""
    else if |parts| == 1 then parts[0]
    else parts[0] + sep + Join(parts[1..], sep)
  }

  /** Joining the pieces of a split with the same separator gives back the
      original text. */
  lemma {:induction false} SplitJoin(s: string, sep: string)
    requires |sep| > 0
    ensures Join(Split(s, sep), sep) == s
    decreases |s|
  {
    if Find(s, sep).Some? {
      var i := Find(s, sep).value;
      var rest := s[i + |sep|..];
      SplitJoin(rest, sep);
      SplitUnfold(s, sep, i);
      JoinCons(s[..i], Split(rest, sep), sep);
      Around(s, sep, i);
    }
  }

  lemma JoinCons(head: string, tail: seq<string>, sep: string)
    requires |tail| >= 1
    ensures Join([head] + tail, sep) == head + sep + Join(tail, sep)
  {
    assert ([head] + tail)[1..] == tail;
  }

  /** Without the separator the text is a single piece; with it, there are
      at least two. */
  lemma SplitWhole(s: string, sep: string)
    requires |sep| > 0
    ensures |Split(s, sep)| == 1 <==> !Contains(s, sep)
    ensures !Contains(s, sep) ==> Split(s, sep) == [s]
  {
    match Find(s, sep)
    case None =>
    case Some(i) =>
      SplitUnfold(s, sep, i);
  }

  /** One step of `Split` when the separator occurs. */
  lemma SplitUnfold(s: string, sep: string, i: nat)
    requires |sep| > 0 && Find(s, sep) == Some(i)
    ensures Split(s, sep) == [s[..i]] + Split(s[i + |sep|..], sep)
  {
  }

  /** An occurrence of `pat` at `i` cuts `s` into three parts. */
  lemma Around(s: string, pat: string, i: nat)
    requires OccursAt(s, pat, i)
    ensures s == s[..i] + pat + s[i + |pat|..]
  {
    assert s[i..i + |pat|] == pat;
    assert s == s[..i] + s[i..i + |pat|] + s[i + |pat|..];
  }

  /** No piece of a split contains the separator. */
  lemma {:induction false} SplitPiecesFree(s: string, sep: string)
    requires |sep| > 0
    ensures forall k :: 0 <= k < |Split(s, sep)| ==> !Contains(Split(s, sep)[k], sep)
    decreases |s|
  {
    match Find(s, sep)
    case None =>
    case Some(i) =>
      var rest := s[i + |sep|..];
      SplitPiecesFree(rest, sep);
      PrefixBeforeFirstFree(s, sep, i);
      SplitUnfold(s, sep, i);
      FreeCons(s[..i], Split(rest, sep), sep);
  }

  lemma FreeCons(head: string, tail: seq<string>, sep: string)
    requires !Contains(head, sep)
    requires forall k :: 0 <= k < |tail| ==> !Contains(tail[k], sep)
    ensures forall k :: 0 <= k < |[head] + tail| ==> !Contains(([head] + tail)[k], sep)
  {
    forall k | 0 <= k < |[head] + tail|
      ensures !Contains(([head] + tail)[k], sep)
    {
      if k > 0 {
        assert ([head] + tail)[k] == tail[k - 1];
      }
    }
  }

  /** The text before the first occurrence of `pat` does not contain `pat`. */
  lemma PrefixBeforeFirstFree(s: string, pat: string, i: nat)
    requires |pat| > 0 && i <= |s|
    requires forall j :: 0 <= j < i ==> !OccursAt(s, pat, j)
    ensures !Contains(s[..i], pat)
  {
    if Contains(s[..i], pat) {
      var j :| OccursAt(s[..i], pat, j);
      assert s[..i][j..j + |pat|] == s[j..j + |pat|];
      assert OccursAt(s, pat, j);
    }
  }

  /** Splitting on a single character yields one more piece than the number
      of times that character occurs. */
  lemma {:induction false} SplitCharCount(s: string, c: char)
    ensures |Split(s, [c])| == multiset(s)[c] + 1
    decreases |s|
  {
    match Find(s, [c])
    case None =>
      ContainsChar(s, c);
      assert c !in s;
    case Some(i) =>
      var rest := s[i + 1..];
      SplitCharCount(rest, c);
      assert c !in s[..i] by {
        PrefixBeforeFirstFree(s, [c], i);
        ContainsChar(s[..i], c);
      }
      SplitUnfold(s, [c], i);
      CharCountAround(s, c, i);
  }

  /** Cutting `s` at an occurrence of `c` preceded by none splits its count. */
  lemma CharCountAround(s: string, c: char, i: nat)
    requires OccursAt(s, [c], i) && c !in s[..i]
    ensures multiset(s)[c] == multiset(s[i + 1..])[c] + 1
  {
    assert s[i..i + 1] == [c];
    assert s == s[..i] + [c] + s[i + 1..];
    assert multiset(s) == multiset(s[..i]) + multiset([c]) + multiset(s[i + 1..]);
  }

  /** `t` is the text after the last `c` in `s`: a tail of `s` free of `c`
      that is either all of `s` or comes right after a `c`. */
  predicate AfterLast(t: string, s: string, c: char) {
    |t| <= |s| && s[|s| - |t|..] == t && c !in t && (|t| == |s| || s[|s| - |t| - 1] == c)
  }

  /** `s.split(sep)[-1]` */
  function LastPiece(s: string, sep: string): string
    requires |sep| > 0
  {
    var parts := Split(s, sep);
    parts[|parts| - 1]
  }

  /** `s.split(c)[-1]` is the text after the last `c`. */
  lemma {:induction false} LastPieceAfterLast(s: string, c: char)
    ensures AfterLast(LastPiece(s, [c]), s, c)
    decreases |s|
  {
    match Find(s, [c])
    case None =>
      ContainsChar(s, c);
      assert Split(s, [c]) == [s];
    case Some(i) =>
      var rest := s[i + 1..];
      LastPieceAfterLast(rest, c);
      SplitUnfold(s, [c], i);
      AfterLastOfRest(s, c, i, LastPiece(rest, [c]));
  }

  /** Text after the last `c` of what follows an occurrence of `c` is the
      text after the last `c` of the whole. */
  lemma AfterLastOfRest(s: string, c: char, i: nat, t: string)
    requires OccursAt(s, [c], i) && AfterLast(t, s[i + 1..], c)
    ensures AfterLast(t, s, c)
  {
    var rest := s[i + 1..];
    assert s[|s| - |t|..] == rest[|rest| - |t|..];
    if |t| == |rest| {
      assert s[i..i + 1] == [c];
    } else {
      assert s[|s| - |t| - 1] == rest[|rest| - |t| - 1];
    }
  }

  /** Where the first piece of `s.split(sep)` ends: at the first occurrence
      of `sep`, or at the end of `s`. */
  function PieceEnd(s: string, sep: string): (k: nat)
    requires |sep| > 0
    ensures k <= |s| && Split(s, sep)[0] == s[..k]
    ensures !Contains(s[..k], sep)
    ensures k == |s| || OccursAt(s, sep, k)
  {
    match Find(s, sep)
    case None =>
      assert s[..|s|] == s;
      |s|
    case Some(i) =>
      PrefixBeforeFirstFree(s, sep, i);
      i
  }

  /** An occurrence inside a slice is an occurrence in the whole text. */
  lemma OccursInSlice(s: string, pat: string, a: nat, b: nat, k: nat)
    requires a <= b <= |s| && OccursAt(s[a..b], pat, k)
    ensures OccursAt(s, pat, a + k)
  {
    var x := s[a..b];
    assert forall m :: 0 <= m < |pat| ==> pat[m] == x[k + m] == s[a + k + m];
    assert s[a + k..a + k + |pat|] == pat;
  }

  /** A text without `pat` has no prefix containing it. */
  lemma PrefixStaysFree(s: string, pat: string, k: nat)
    requires k <= |s| && !Contains(s, pat)
    ensures !Contains(s[..k], pat)
  {
    if Contains(s[..k], pat) {
      var m :| OccursAt(s[..k], pat, m);
      OccursInSlice(s, pat, 0, k, m);
    }
  }

  /** `s.split(sep, 1)` when `sep in s`: the text before the first occurrence
      and everything after it. */
  function SplitOnce(s: string, sep: string): (r: (string, string))
    requires |sep| > 0 && Contains(s, sep)
    ensures r.0 + sep + r.1 == s
    ensures !Contains(r.0, sep)
  {
    var i := Find(s, sep).value;
    assert s[i..i + |sep|] == sep;
    assert s == s[..i] + sep + s[i + |sep|..];
    PrefixBeforeFirstFree(s, sep, i);
    (s[..i], s[i + |sep|..])
  }

  /** The first occurrence of a character is where the text before it ends,
      when that text lacks the character. */
  lemma FindFirstChar(before: string, c: char, after: string)
    requires c !in before
    ensures Find(before + [c] + after, [c]) == Some(|before|)
  {
    var s := before + [c] + after;
    assert OccursAt(s, [c], |before|) by {
      assert s[|before|..|before| + 1] == [c];
    }
    forall j | 0 <= j < |before|
      ensures !OccursAt(s, [c], j)
    {
      assert s[j] == before[j];
      assert s[j..j + 1][0] == s[j];
    }
  }

  /** Splitting once at a character that the text before it lacks cuts the
      text exactly there. */
  lemma SplitOnceAtFirst(before: string, c: char, after: string)
    requires c !in before
    ensures Contains(before + [c] + after, [c])
    ensures SplitOnce(before + [c] + after, [c]) == (before, after)
  {
    FindFirstChar(before, c, after);
  }

  /** Splitting the join of pieces that lack a one-character separator gives
      the pieces back. */
  lemma {:induction false} SplitJoinChar(parts: seq<string>, c: char)
    requires |parts| >= 1
    requires forall i :: 0 <= i < |parts| ==> c !in parts[i]
    ensures Split(Join(parts, [c]), [c]) == parts
    decreases |parts|
  {
    if |parts| == 1 {
      ContainsChar(parts[0], c);
      SplitWhole(parts[0], [c]);
    } else {
      var head, tail := parts[0], parts[1..];
      var rest := Join(tail, [c]);
      var s := Join(parts, [c]);
      assert [head] + tail == parts;
      JoinCons(head, tail, [c]);
      assert s == head + [c] + rest;
      FindFirstChar(head, c, rest);
      SplitUnfold(s, [c], |head|);
      assert s[..|head|] == head;
      assert s[|head| + 1..] == rest;
      SplitJoinChar(tail, c);
    }
  }

  // ---------------------------------------------------------------------------
  // Numbers and slices
  // ---------------------------------------------------------------------------

  function DigitChar(d: nat): (c: char)
    requires d < 10
    ensures IsDigit(c) && c as int - '0' as int == d
  {
    ('0' as int + d) as char
  }

  /** `str(n)` for a natural number: its decimal digits, most significant first. */
  function NatToString(n: nat): (r: string)
    ensures |r| >= 1
    ensures forall i :: 0 <= i < |r| ==> IsDigit(r[i])
    decreases n
  {
    if n < 10 then [DigitChar(n)] else NatToString(n / 10) + [DigitChar(n % 10)]
  }

  /** The value of a string of decimal digits (`int(s)`, with "" read as 0). */
  function DigitsValue(s: string): nat
    requires forall i :: 0 <= i < |s| ==> IsDigit(s[i])
  {
    if |s| == 0 then 0
    else
      var last := s[|s| - 1];
      assert IsDigit(last);
      DigitsValue(s[..|s| - 1]) * 10 + (last as int - '0' as int)
  }

  /** Reading back the decimal text of `n` gives `n`, so the rendering loses
      nothing. */
  lemma {:induction false} NatToStringRoundTrip(n: nat)
    ensures DigitsValue(NatToString(n)) == n
    decreases n
  {
    if n >= 10 {
      NatToStringRoundTrip(n / 10);
      var s := NatToString(n);
      assert s[..|s| - 1] == NatToString(n / 10);
    }
  }

  /** `s[:n] + "..." if len(s) > n else s` */
  function Preview(s: string, n: nat): (r: string)
    ensures |r| <= n + 3
    ensures |s| <= n ==> r == s
    ensures |s| > n ==> StartsWith(r, s[..n]) && |r| == n + 3
    ensures |s| > n ==> r[n..] == "..."
  {
    if |s| > n then s[..n] + "..." else s
  }

  /** `c * n`: the character repeated `n` times. */
  function Repeat(c: char, n: nat): (r: string)
    ensures |r| == n && forall i :: 0 <= i < n ==> r[i] == c
  {
    seq(n, _ => c)
  }
}
