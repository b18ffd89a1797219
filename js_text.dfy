/**
 * The JavaScript string built-ins the game relies on, stated on Dafny
 * strings: white space as the `\s` class and `trim` see it, `trim`,
 * leftmost search (`indexOf`, regular-expression scanning), `split`,
 * `parseInt` on a run of decimal digits, `String(n)` and `join`.
 */
module JsText {
  import opened Wrappers

  /** The characters `\s` matches and `trim` removes: ECMAScript's
      WhiteSpace and LineTerminator code points. */
  predicate IsSpace(c: char): (b: bool)
    ensures b ==> !IsDigit(c) && c != ']'
  {
    || c == ' ' || c == '\t' || c == '\n' || c == '\r'
    || c == '\U{B}' || c == '\U{C}' || c == '\U{A0}' || c == '\U{1680}'
    || ('\U{2000}' <= c <= '\U{200A}')
    || c == '\U{2028}' || c == '\U{2029}' || c == '\U{202F}' || c == '\U{205F}'
    || c == '\U{3000}' || c == '\U{FEFF}'
  }

  /** `\d`: an ASCII decimal digit. */
  predicate IsDigit(c: char)
  {
    '0' <= c <= '9'
  }

  predicate AllSpace(s: string)
  {
    forall k :: 0 <= k < |s| ==> IsSpace(s[k])
  }

  predicate AllDigits(s: string)
  {
    forall k :: 0 <= k < |s| ==> IsDigit(s[k])
  }

  /** No white space at either end. */
  predicate IsTrimmed(s: string)
  {
    s == [] || (!IsSpace(s[0]) && !IsSpace(s[|s| - 1]))
  }

  /** `s.trim()`: the text between the leading and the trailing white space;
      no white space at either end, and empty exactly when `s` is nothing but
      white space. */
  function Trim(s: string): (r: string)
    ensures |r| <= |s|
    ensures IsTrimmed(r)
    ensures r == [] <==> AllSpace(s)
  {
    var start := RunEnd(s, 0, IsSpace);
    RunEndRun(s, 0, IsSpace);
    if start == |s| then []
    else
      var end := RunStart(s, |s|, IsSpace);
      RunStartRun(s, |s|, IsSpace);
      assert start < end;
      s[start..end]
  }

  lemma {:induction false} TrimOfTrimmed(s: string)
    requires IsTrimmed(s)
    ensures Trim(s) == s
  {
    if s != [] {
      assert RunEnd(s, 0, IsSpace) == 0;
      assert RunStart(s, |s|, IsSpace) == |s|;
    }
  }

  /** What `trim` keeps: a slice of `s` with only white space outside it. */
  lemma {:induction false} TrimIsSlice(s: string)
    ensures exists i, j :: 0 <= i <= j <= |s| && Trim(s) == s[i..j] && AllSpace(s[..i]) && AllSpace(s[j..])
  {
    var start := RunEnd(s, 0, IsSpace);
    RunEndRun(s, 0, IsSpace);
    assert AllSpace(s[..start]) by {
      forall k | 0 <= k < start ensures IsSpace(s[..start][k]) {
        assert s[..start][k] == s[k];
      }
    }
    if start == |s| {
      assert Trim(s) == s[start..start] && AllSpace(s[start..]);
    } else {
      var end := RunStart(s, |s|, IsSpace);
      RunStartRun(s, |s|, IsSpace);
      assert start < end;
      assert AllSpace(s[end..]) by {
        forall k | 0 <= k < |s| - end ensures IsSpace(s[end..][k]) {
          assert s[end..][k] == s[end + k];
        }
      }
      assert Trim(s) == s[start..end];
    }
  }

  /** Conversely, a trimmed text padded with white space on both sides trims
      back to itself, so `trim` is fixed by the two facts above. */
  lemma {:induction false} TrimOfPadded(a: string, r: string, b: string)
    requires AllSpace(a) && AllSpace(b) && IsTrimmed(r)
    ensures Trim(a + r + b) == r
  {
    var s := a + r + b;
    var close := |a| + |r|;
    forall k | 0 <= k < |a| ensures IsSpace(s[k]) {
      assert s[k] == (a + r)[k];
    }
    forall k | close <= k < |s| ensures IsSpace(s[k]) {
      assert s[k] == b[k - close];
    }
    forall k | 0 <= k < |r| ensures s[|a| + k] == r[k] {
      assert s[|a| + k] == (a + r)[|a| + k];
    }
    if r == [] {
      assert AllSpace(s);
    } else {
      assert s[|a|] == r[0] && s[close - 1] == r[|r| - 1];
      RunEndIsUnique(s, 0, |a|, IsSpace);
      RunStartIsUnique(s, close, |s|, IsSpace);
      assert s[|a|..close] == r;
    }
  }

  /** Trimming a trimmed string followed by one blank gives it back. */
  lemma {:induction false} TrimDropsTrailingBlank(s: string)
    requires IsTrimmed(s)
    ensures Trim(s + " ") == s
  {
    assert [] + s + " " == s + " ";
    TrimOfPadded([], s, " ");
  }

  /** The leftmost position `k` in `[i, n)` with `p(k)`: how `indexOf` and a
      regular-expression scan find their first match. */
  function FindFrom(p: nat -> bool, i: nat, n: nat): (r: Option<nat>)
    ensures r.Some? ==> i <= r.value < n && p(r.value)
    ensures r.Some? ==> forall k :: i <= k < r.value ==> !p(k)
    ensures r.None? ==> forall k :: i <= k < n ==> !p(k)
    decreases n - i
  {
    if n <= i then None
    else if p(i) then Some(i)
    else FindFrom(p, i + 1, n)
  }

  /** The leftmost match is the one `FindFrom` finds. */
  lemma {:induction false} FindFromFirst(p: nat -> bool, lo: nat, n: nat, i: nat)
    requires lo <= i < n && p(i)
    requires forall k: nat :: lo <= k < i ==> !p(k)
    ensures FindFrom(p, lo, n) == Some(i)
    decreases i - lo
  {
    if lo < i {
      FindFromFirst(p, lo + 1, n, i);
    }
  }

  /** `pat` occurs in `s` at position `k`. */
  predicate StartsAt(s: string, pat: string, k: nat)
  {
    k + |pat| <= |s| && forall j :: 0 <= j < |pat| ==> s[k + j] == pat[j]
  }

  /** Whether `pat` occurs at `k` depends only on the characters there: a
      string `t` that agrees with `s` from `off` on has the same occurrences. */
  lemma {:induction false} StartsAtShift(s: string, t: string, off: nat, pat: string, k: nat)
    requires off + |t| <= |s|
    requires forall j {:trigger t[j]} :: 0 <= j < |t| ==> t[j] == s[off + j]
    requires k + |pat| <= |t|
    ensures StartsAt(t, pat, k) <==> StartsAt(s, pat, off + k)
  {
    forall j | 0 <= j < |pat| ensures (t[k + j] == pat[j]) == (s[off + k + j] == pat[j]) {
      assert t[k + j] == s[off + (k + j)];
    }
  }

  /** `s.indexOf(pat, from)`, with -1 as `None`. */
  function IndexOf(s: string, pat: string, from: nat): (r: Option<nat>)
    requires pat != []
    ensures r.Some? ==> from <= r.value && StartsAt(s, pat, r.value)
    ensures r.Some? ==> forall k: nat :: from <= k < r.value ==> !StartsAt(s, pat, k)
    ensures r.None? ==> forall k: nat :: from <= k ==> !StartsAt(s, pat, k)
  {
    var p := (k: nat) => StartsAt(s, pat, k);
    var r := FindFrom(p, from, |s|);
    var stop := if r.Some? then r.value else |s|;
    assert forall k: nat :: from <= k < stop ==> !StartsAt(s, pat, k) by {
      forall k: nat | from <= k < stop ensures !StartsAt(s, pat, k) {
        assert !p(k);
      }
    }
    r
  }

  /** The first two pieces of `s.split(pat)`, which is all that destructuring
      `const [a, b] = s.split(pat)` keeps: the text before the first
      occurrence of `pat`, and the text from there to the next occurrence or
      the end (`undefined`, here `None`, when `pat` does not occur). */
  datatype SplitHead = SplitHead(first: string, second: Option<string>)

  function SplitHeadOf(s: string, pat: string): (r: SplitHead)
    requires pat != []
    ensures |r.first| <= |s| && r.first == s[..|r.first|]
    ensures forall k: nat :: k < |r.first| ==> !StartsAt(s, pat, k)
    ensures r.second.None? <==> forall k: nat :: !StartsAt(s, pat, k)
    ensures r.second.None? ==> r.first == s
    ensures r.second.Some? ==>
      var b := |r.first| + |pat|;
      var e := b + |r.second.value|;
      && StartsAt(s, pat, |r.first|)
      && e <= |s| && s[b..e] == r.second.value
      && (e == |s| || StartsAt(s, pat, e))
      && forall k: nat :: b <= k < e ==> !StartsAt(s, pat, k)
  {
    match IndexOf(s, pat, 0)
    case None => SplitHead(s, None)
    case Some(i) =>
      var b := i + |pat|;
      match IndexOf(s, pat, b)
      case None => SplitHead(s[..i], Some(s[b..]))
      case Some(j) => SplitHead(s[..i], Some(s[b..j]))
  }

  /** The end of the longest run of characters satisfying `p` that starts at
      `i`: where a greedy `p*` stops. */
  function RunEnd(s: string, i: nat, p: char -> bool): (j: nat)
    requires i <= |s|
    ensures i <= j <= |s|
    ensures j == |s| || !p(s[j])
    decreases |s| - i
  {
    if i < |s| && p(s[i]) then RunEnd(s, i + 1, p) else i
  }

  /** Every character of the run satisfies `p`. */
  lemma {:induction false} RunEndRun(s: string, i: nat, p: char -> bool)
    requires i <= |s|
    ensures forall k :: i <= k < RunEnd(s, i, p) ==> p(s[k])
    decreases |s| - i
  {
    if i < |s| && p(s[i]) {
      RunEndRun(s, i + 1, p);
    }
  }

  /** The start of the longest run of characters satisfying `p` that ends
      at `j`: where a greedy `p*` anchored at `j` stops going backwards. */
  function RunStart(s: string, j: nat, p: char -> bool): (i: nat)
    requires j <= |s|
    ensures i <= j
    ensures i == 0 || !p(s[i - 1])
  {
    if j > 0 && p(s[j - 1]) then RunStart(s, j - 1, p) else j
  }

  /** Every character of the run satisfies `p`. */
  lemma {:induction false} RunStartRun(s: string, j: nat, p: char -> bool)
    requires j <= |s|
    ensures forall k :: RunStart(s, j, p) <= k < j ==> p(s[k])
  {
    if j > 0 && p(s[j - 1]) {
      RunStartRun(s, j - 1, p);
    }
  }

  /** A run end is determined by the run it ends. */
  lemma {:induction false} RunEndIsUnique(s: string, i: nat, j: nat, p: char -> bool)
    requires i <= j <= |s|
    requires forall k :: i <= k < j ==> p(s[k])
    requires j == |s| || !p(s[j])
    ensures RunEnd(s, i, p) == j
    decreases j - i
  {
    if i < j {
      RunEndIsUnique(s, i + 1, j, p);
    }
  }

  /** A run start is determined by the run it starts. */
  lemma {:induction false} RunStartIsUnique(s: string, i: nat, j: nat, p: char -> bool)
    requires i <= j <= |s|
    requires forall k :: i <= k < j ==> p(s[k])
    requires i == 0 || !p(s[i - 1])
    ensures RunStart(s, j, p) == i
    decreases j - i
  {
    if i < j {
      RunStartIsUnique(s, i, j - 1, p);
    }
  }

  /** A run that stops inside a prefix `t` of `s` stops at the same place in `t`. */
  lemma {:induction false} RunEndInPrefix(s: string, t: string, i: nat, p: char -> bool)
    requires i <= |t| <= |s|
    requires forall j {:trigger t[j]} :: 0 <= j < |t| ==> t[j] == s[j]
    requires RunEnd(s, i, p) < |t|
    ensures RunEnd(t, i, p) == RunEnd(s, i, p)
  {
    var e := RunEnd(s, i, p);
    RunEndRun(s, i, p);
    forall k | i <= k < e ensures p(t[k]) {
      assert t[k] == s[k];
    }
    assert t[e] == s[e];
    RunEndIsUnique(t, i, e, p);
  }

  function DigitValue(c: char): nat
    requires IsDigit(c)
  {
    c as int - '0' as int
  }

  function DigitChar(d: nat): (c: char)
    requires d < 10
    ensures IsDigit(c) && DigitValue(c) == d
  {
    ('0' as int + d) as char
  }

  /** `parseInt` of a string of decimal digits (leading zeros allowed). */
  function DecimalValue(s: string): (v: nat)
    requires AllDigits(s)
    ensures v == 0 <==> forall k :: 0 <= k < |s| ==> s[k] == '0'
    decreases |s|
  {
    if s == [] then 0
    else
      var init := s[..|s| - 1];
      assert forall k :: 0 <= k < |init| ==> init[k] == s[k];
      10 * DecimalValue(init) + DigitValue(s[|s| - 1])
  }

  /** `parseInt` ignores leading zeros: `"0" + s` has the value of `s`. */
  lemma {:induction false} DecimalOfLeadingZero(s: string)
    requires AllDigits(s)
    ensures DecimalValue("0" + s) == DecimalValue(s)
    decreases |s|
  {
    if s != [] {
      var z := "0" + s;
      assert z[..|z| - 1] == "0" + s[..|s| - 1];
      DecimalOfLeadingZero(s[..|s| - 1]);
    }
  }

  /** `String(n)` for a non-negative integer: its decimal digits, without a
      leading zero unless the number is zero. */
  function NatToString(n: nat): (s: string)
    ensures s != [] && AllDigits(s)
    ensures s[0] == '0' ==> n == 0
    decreases n
  {
    if n < 10 then [DigitChar(n)] else NatToString(n / 10) + [DigitChar(n % 10)]
  }

  /** `parseInt(String(n)) == n`. */
  lemma {:induction false} DecimalOfNatToString(n: nat)
    ensures DecimalValue(NatToString(n)) == n
    decreases n
  {
    if n >= 10 {
      var s := NatToString(n);
      assert s[..|s| - 1] == NatToString(n / 10);
      DecimalOfNatToString(n / 10);
    }
  }

  /** `parts.join(sep)`. */
  function Join(parts: seq<string>, sep: string): string
    decreases |parts|
  {
    if parts == [] then ""
    else if |parts| == 1 then parts[0]
    else parts[0] + sep + Join(parts[1..], sep)
  }

  /** A join starts with the first part and ends with the last, and with
      one part it is that part. */
  lemma {:induction false} JoinEnds(parts: seq<string>, sep: string)
    requires parts != []
    ensures var r := Join(parts, sep);
      && (|parts| == 1 ==> r == parts[0])
      && |r| >= |parts[0]| && r[..|parts[0]|] == parts[0]
      && |r| >= |parts[|parts| - 1]| && r[|r| - |parts[|parts| - 1]|..] == parts[|parts| - 1]
    decreases |parts|
  {
    if |parts| > 1 {
      JoinEnds(parts[1..], sep);
      var last := parts[|parts| - 1];
      var tail := Join(parts[1..], sep);
      assert parts[1..][|parts[1..]| - 1] == last;
      assert (parts[0] + sep + tail)[..|parts[0]|] == parts[0];
      assert (parts[0] + sep + tail)[|parts[0] + sep + tail| - |last|..] == tail[|tail| - |last|..];
    }
  }

  predicate NotBlank(c: char)
  {
    c != ' '
  }

  /** `s.slice(i).split(' ')`: the pieces between the blanks of `s` from
      `i` on, never an empty list. */
  function SplitBlankFrom(s: string, i: nat): (parts: seq<string>)
    requires i <= |s|
    ensures parts != []
    ensures forall k :: 0 <= k < |parts| ==> ' ' !in parts[k]
    decreases |s| - i
  {
    var j := RunEnd(s, i, NotBlank);
    RunEndRun(s, i, NotBlank);
    var piece := s[i..j];
    assert forall k :: 0 <= k < |piece| ==> piece[k] == s[i + k];
    if j == |s| then [piece] else [piece] + SplitBlankFrom(s, j + 1)
  }

  /** `s.split(' ')`. */
  function SplitBlank(s: string): seq<string>
  {
    SplitBlankFrom(s, 0)
  }

  /** Joining the pieces of a split with the blank gives the string back. */
  lemma {:induction false} JoinSplitBlankFrom(s: string, i: nat)
    requires i <= |s|
    ensures Join(SplitBlankFrom(s, i), " ") == s[i..]
    decreases |s| - i
  {
    var j := RunEnd(s, i, NotBlank);
    if j < |s| {
      var rest := SplitBlankFrom(s, j + 1);
      JoinSplitBlankFrom(s, j + 1);
      var parts := [s[i..j]] + rest;
      assert parts[1..] == rest;
      assert Join(parts, " ") == s[i..j] + " " + s[j + 1..];
      var joined := s[i..j] + " " + s[j + 1..];
      assert forall k :: 0 <= k < |joined| ==> joined[k] == s[i + k];
    }
  }

  /** `s.split(' ').join(' ') == s`. */
  lemma JoinSplitBlank(s: string)
    ensures Join(SplitBlank(s), " ") == s
  {
    JoinSplitBlankFrom(s, 0);
  }
}
