/**
 * ANSI colour wrapping of the terminal colour helpers: a colour function wraps
 * its input in an open and a close escape code, and replaces every inner
 * occurrence of the close code (searched from a start index) by a replacement,
 * by default the open code, so that nested colours survive the inner close.
 *
 * The input of a colour function is modelled as an optional string: `None`
 * stands for `undefined` and `null`; other JavaScript values reach the code
 * through `String(value)`, which is not part of this model.
 */
module ColorGenerator {
  import opened Wrappers

  function Min(a: nat, b: nat): nat
  {
    if a <= b then a else b
  }

  /** `pat` occurs in `s` starting at index `k`. */
  predicate OccursAt(s: string, pat: string, k: int)
  {
    0 <= k && k + |pat| <= |s| && s[k..k + |pat|] == pat
  }

  function SearchFrom(s: string, pat: string, k: nat): (r: int)
    requires k <= |s|
    ensures r == -1 || (k <= r && OccursAt(s, pat, r))
    ensures forall j :: k <= j && (r < 0 || j < r) ==> !OccursAt(s, pat, j)
    decreases |s| - k
  {
    if OccursAt(s, pat, k) then k
    else if k == |s| then -1
    else SearchFrom(s, pat, k + 1)
  }

  /**
   * `String.prototype.indexOf(pat, from)`: the first occurrence of `pat` at or
   * after `from` (a start past the end is clamped to the length), or -1.
   */
  function IndexOf(s: string, pat: string, from: nat): (r: int)
    ensures r == -1 || (Min(from, |s|) <= r && OccursAt(s, pat, r))
    ensures forall j :: Min(from, |s|) <= j && (r < 0 || j < r) ==> !OccursAt(s, pat, j)
  {
    SearchFrom(s, pat, Min(from, |s|))
  }

  /**
   * `replaceClose`: replaces the close code found at `index` by `replace`, then
   * searches the remaining tail (never the text just inserted) for the next
   * close code and recurses on that strictly shorter tail.
   */
  function ReplaceClose(index: nat, s: string, close: string, replace: string): (r: string)
    requires |close| > 0 && index + |close| <= |s|
    ensures |r| >= index + |replace|
    ensures r[..index] == s[..index] && r[index..index + |replace|] == replace
    decreases |s|, 1
  {
    var head := s[..index] + replace;
    var tail := s[index + |close|..];
    head + RestOfScan(tail, close, replace)
  }

  /**
   * Reference definition, independent of the search: scan left to right; where
   * `pat` starts, emit `rep` and skip past the occurrence; otherwise keep the
   * character. Occurrences therefore never overlap.
   */
  function ReplaceAll(s: string, pat: string, rep: string): string
    requires |pat| > 0
    decreases |s|
  {
    if |s| == 0 then ""
    else if OccursAt(s, pat, 0) then rep + ReplaceAll(s[|pat|..], pat, rep)
    else [s[0]] + ReplaceAll(s[1..], pat, rep)
  }

  /** `clearBleed`: wrap the input; replace inner close codes when one was found. */
  function ClearBleed(index: int, s: string, open: string, close: string, replace: string): (r: string)
    requires index >= 0 ==> |close| > 0 && index + |close| <= |s|
    ensures |r| >= |open| + |close| && r[..|open|] == open && r[|r| - |close|..] == close
    ensures index < 0 ==> r[|open|..|r| - |close|] == s
    ensures index >= 0 ==>
      |r| >= |open| + index + |replace| + |close| &&
      r[|open|..|open| + index] == s[..index] && r[|open| + index..|open| + index + |replace|] == replace
  {
    if index < 0 then open + s + close
    else open + ReplaceClose(index, s, close, replace) + close
  }

  /** The closure that `filterEmpty` returns, with the arguments it captured. */
  datatype ColorFunction = ColorFunction(open: string, close: string, replace: string, at: nat)

  /** `filterEmpty(open, close, replace = open, at = open.length + 1)`. */
  function FilterEmpty(open: string, close: string, replace: Option<string>, at: Option<nat>): (f: ColorFunction)
    ensures f.open == open && f.close == close
    ensures f.replace == replace.GetOr(open) && f.at == at.GetOr(|open| + 1)
    ensures replace.None? ==> f.replace == open
    ensures at.None? ==> f.at == |open| + 1
  {
    ColorFunction(open, close, replace.GetOr(open), at.GetOr(|open| + 1))
  }

  /**
   * Calling a colour function: absent input and the empty string give the empty
   * string; anything else is wrapped, with the close codes found from `at` on
   * replaced.
   */
  function Apply(f: ColorFunction, input: Option<string>): (r: string)
    requires |f.close| > 0
    ensures input.None? || input == Some("") ==> r == ""
    ensures input.Some? && input.value != "" ==>
      |r| >= |f.open| + |f.close| && r[..|f.open|] == f.open && r[|r| - |f.close|..] == f.close
  {
    match input
    case None => ""
    case Some(s) =>
      if s == "" then ""
      else ClearBleed(IndexOf(s, f.close, f.at), s, f.open, f.close, f.replace)
  }

  /** The escape sequence `ESC [ code m` for one SGR code. */
  function EscapeCode(code: string): (e: string)
    ensures |e| == |code| + 3
    ensures e[0] == '\U{1B}' && e[1] == '[' && e[|e| - 1] == 'm'
    ensures e[2..|e| - 1] == code
  {
    "\U{1B}[" + code + "m"
  }

  /**
   * `assembleColor(open, close, replace)`: the codes are written as escape
   * sequences and `replace` defaults to the open sequence.
   */
  function AssembleColor(open: string, close: string, replace: Option<string>): (f: ColorFunction)
    ensures f.open == EscapeCode(open) && f.close == EscapeCode(close)
    ensures |f.close| > 0
    ensures f.replace == replace.GetOr(EscapeCode(open))
    ensures f.at == |EscapeCode(open)| + 1
  {
    FilterEmpty(EscapeCode(open), EscapeCode(close), replace, None)
  }

  lemma OccursAtShift(s: string, pat: string, d: nat, j: int)
    requires d <= |s|
    ensures OccursAt(s[d..], pat, j) <==> (0 <= j && OccursAt(s, pat, d + j))
  {
    if 0 <= j && j + |pat| <= |s| - d {
      assert s[d..][j..j + |pat|] == s[d + j..d + j + |pat|];
    }
  }

  /** Positions where no occurrence starts are copied verbatim by the reference replacement. */
  lemma {:induction false} ReplaceAllSkip(s: string, pat: string, rep: string, k: nat)
    requires |pat| > 0 && k <= |s|
    requires forall j :: 0 <= j < k ==> !OccursAt(s, pat, j)
    ensures ReplaceAll(s, pat, rep) == s[..k] + ReplaceAll(s[k..], pat, rep)
  {
    if k == 0 {
      assert s[..0] == "" && s[0..] == s;
    } else {
      assert !OccursAt(s, pat, 0);
      var t := s[1..];
      forall j | 0 <= j < k - 1
        ensures !OccursAt(t, pat, j)
      {
        OccursAtShift(s, pat, 1, j);
      }
      ReplaceAllSkip(t, pat, rep, k - 1);
      assert t[k - 1..] == s[k..];
      assert [s[0]] + t[..k - 1] == s[..k];
    }
  }

  /** A string in which the pattern never occurs is its own replacement. */
  lemma ReplaceAllNoOccurrence(s: string, pat: string, rep: string)
    requires |pat| > 0
    requires forall j :: 0 <= j <= |s| ==> !OccursAt(s, pat, j)
    ensures ReplaceAll(s, pat, rep) == s
  {
    ReplaceAllSkip(s, pat, rep, |s|);
    assert s[..|s|] == s && s[|s|..] == "";
  }

  /**
   * `replaceClose` started at an occurrence of the close code replaces exactly
   * the occurrences that the left-to-right, non-overlapping reference scan
   * replaces, and keeps everything before the start index.
   */
  lemma {:induction false} ReplaceCloseIsReplaceAll(index: nat, s: string, close: string, replace: string)
    requires |close| > 0 && OccursAt(s, close, index)
    ensures ReplaceClose(index, s, close, replace) == s[..index] + ReplaceAll(s[index..], close, replace)
    decreases |s|, 0
  {
    var tail := s[index + |close|..];
    var done := RestOfScan(tail, close, replace);
    ReplaceAllAtOccurrence(s, close, replace, index);
    TailScanIsReplaceAll(tail, close, replace);
    assert ReplaceClose(index, s, close, replace) == (s[..index] + replace) + done;
    assert (s[..index] + replace) + done == s[..index] + (replace + done);
  }

  /** What `replaceClose` appends after a replaced close code: the tail as is, or its own recursion on the next close code. */
  function RestOfScan(tail: string, close: string, replace: string): string
    requires |close| > 0
    decreases |tail|, 2
  {
    var next := IndexOf(tail, close, 0);
    if next < 0 then tail else ReplaceClose(next, tail, close, replace)
  }

  /** The rest of the scan replaces every close code of the tail. */
  lemma {:induction false} TailScanIsReplaceAll(tail: string, close: string, replace: string)
    requires |close| > 0
    ensures RestOfScan(tail, close, replace) == ReplaceAll(tail, close, replace)
    decreases |tail|, 1
  {
    var next := IndexOf(tail, close, 0);
    if next < 0 {
      ReplaceAllNoOccurrence(tail, close, replace);
    } else {
      ReplaceCloseIsReplaceAll(next, tail, close, replace);
      ReplaceAllSkip(tail, close, replace, next);
    }
  }

  /** Where the pattern occurs, the reference replacement emits the replacement and resumes after it. */
  lemma ReplaceAllAtOccurrence(s: string, pat: string, rep: string, k: nat)
    requires |pat| > 0 && OccursAt(s, pat, k)
    ensures ReplaceAll(s[k..], pat, rep) == rep + ReplaceAll(s[k + |pat|..], pat, rep)
  {
    OccursAtShift(s, pat, k, 0);
    assert s[k..][|pat|..] == s[k + |pat|..];
  }

  /**
   * What a colour function does to a non-empty string: open code, the first
   * `at` characters untouched, every close code after them replaced left to
   * right without overlap, close code.
   */
  lemma ApplyReplacesEveryCloseFromAt(f: ColorFunction, s: string)
    requires |f.close| > 0 && s != ""
    ensures var a := Min(f.at, |s|);
      Apply(f, Some(s)) == f.open + (s[..a] + ReplaceAll(s[a..], f.close, f.replace)) + f.close
  {
    var a := Min(f.at, |s|);
    var idx := IndexOf(s, f.close, f.at);
    if idx < 0 {
      assert Apply(f, Some(s)) == f.open + s + f.close;
      UnscannedWhenNoClose(f, s);
    } else {
      assert Apply(f, Some(s)) == f.open + ReplaceClose(idx, s, f.close, f.replace) + f.close;
      ReplaceCloseIsReplaceAll(idx, s, f.close, f.replace);
      ScannedFromFirstClose(f, s);
    }
  }

  lemma UnscannedWhenNoClose(f: ColorFunction, s: string)
    requires |f.close| > 0 && IndexOf(s, f.close, f.at) < 0
    ensures var a := Min(f.at, |s|);
      s == s[..a] + ReplaceAll(s[a..], f.close, f.replace)
  {
    var a := Min(f.at, |s|);
    var rest := s[a..];
    forall j | 0 <= j <= |rest|
      ensures !OccursAt(rest, f.close, j)
    {
      OccursAtShift(s, f.close, a, j);
    }
    ReplaceAllNoOccurrence(rest, f.close, f.replace);
    assert s[..a] + rest == s;
  }

  lemma ScannedFromFirstClose(f: ColorFunction, s: string)
    requires |f.close| > 0 && IndexOf(s, f.close, f.at) >= 0
    ensures var a := Min(f.at, |s|);
      var idx := IndexOf(s, f.close, f.at);
      s[..idx] + ReplaceAll(s[idx..], f.close, f.replace) == s[..a] + ReplaceAll(s[a..], f.close, f.replace)
  {
    var a := Min(f.at, |s|);
    var idx := IndexOf(s, f.close, f.at);
    var r := ReplaceAll(s[idx..], f.close, f.replace);
    assert ReplaceAll(s[a..], f.close, f.replace) == s[a..idx] + r by {
      SkipToIndex(s, f.close, f.replace, a, idx);
    }
    assert s[..a] + (s[a..idx] + r) == (s[..a] + s[a..idx]) + r;
    assert s[..a] + s[a..idx] == s[..idx];
  }

  lemma SkipToIndex(s: string, pat: string, rep: string, a: nat, idx: nat)
    requires |pat| > 0 && a <= idx <= |s|
    requires forall j :: a <= j < idx ==> !OccursAt(s, pat, j)
    ensures ReplaceAll(s[a..], pat, rep) == s[a..idx] + ReplaceAll(s[idx..], pat, rep)
  {
    var rest := s[a..];
    forall j | 0 <= j < idx - a
      ensures !OccursAt(rest, pat, j)
    {
      OccursAtShift(s, pat, a, j);
    }
    ReplaceAllSkip(rest, pat, rep, idx - a);
    assert rest[idx - a..] == s[idx..];
    assert rest[..idx - a] == s[a..idx];
  }

  /** Input with no close code at or after the start index is wrapped unchanged. */
  lemma ApplyWithoutInnerClose(f: ColorFunction, s: string)
    requires |f.close| > 0 && s != ""
    requires forall j :: Min(f.at, |s|) <= j <= |s| ==> !OccursAt(s, f.close, j)
    ensures Apply(f, Some(s)) == f.open + s + f.close
  {
  }

  /** A close code that starts before the start index is left in place, even right at the front. */
  lemma LeadingCloseKept(f: ColorFunction, t: string)
    requires |f.close| > 0 && f.at > 0
    ensures var s := f.close + t;
      Apply(f, Some(s))[|f.open|..|f.open| + Min(f.at, |s|)] == s[..Min(f.at, |s|)]
  {
    var s := f.close + t;
    ApplyReplacesEveryCloseFromAt(f, s);
  }

  /** One of the plain colours: red wraps a word with ESC[31m and ESC[39m. */
  lemma RedWrapsWord()
    ensures Apply(AssembleColor("31", "39", None), Some("red")) == "\U{1B}[31mred\U{1B}[39m"
  {
  }

  /**
   * Nesting: when the painted text holds exactly one close code after the start
   * index (the close of an inner colour sharing this close code), that code is
   * replaced by the replacement, by default this colour's open code, so the
   * text after the inner section is painted again.
   */
  lemma InnerCloseReopens(f: ColorFunction, t: string, p: nat)
    requires |f.close| > 0 && Min(f.at, |t|) <= p && OccursAt(t, f.close, p)
    requires forall j :: Min(f.at, |t|) <= j && j != p ==> !OccursAt(t, f.close, j)
    ensures Apply(f, Some(t)) == f.open + (t[..p] + f.replace + t[p + |f.close|..]) + f.close
  {
    var a := Min(f.at, |t|);
    var after := t[p + |f.close|..];
    var inner := t[..p] + f.replace + after;
    assert t[..a] + ReplaceAll(t[a..], f.close, f.replace) == inner by {
      SingleOccurrenceReplaced(t, f.close, f.replace, a, p);
      assert t[..a] + t[a..p] == t[..p];
      assert t[..a] + (t[a..p] + f.replace + after) == inner;
    }
    ApplyReplacesEveryCloseFromAt(f, t);
  }

  lemma SingleOccurrenceReplaced(t: string, c: string, rep: string, a: nat, p: nat)
    requires |c| > 0 && a <= p && OccursAt(t, c, p)
    requires forall j :: a <= j && j != p ==> !OccursAt(t, c, j)
    ensures ReplaceAll(t[a..], c, rep) == t[a..p] + rep + t[p + |c|..]
  {
    var after := t[p + |c|..];
    SkipToIndex(t, c, rep, a, p);
    assert ReplaceAll(t[p..], c, rep) == rep + ReplaceAll(after, c, rep) by {
      OccursAtShift(t, c, p, 0);
      assert t[p..][|c|..] == after;
    }
    assert ReplaceAll(after, c, rep) == after by {
      forall j | 0 <= j <= |after|
        ensures !OccursAt(after, c, j)
      {
        OccursAtShift(t, c, p + |c|, j);
      }
      ReplaceAllNoOccurrence(after, c, rep);
    }
    assert t[a..p] + (rep + after) == t[a..p] + rep + after;
  }
}
