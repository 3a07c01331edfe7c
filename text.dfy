/** Python string operations the triage code relies on, over `seq<char>`:
    substring tests (`p in s`), `str.startswith`, `str.lower`, `str.replace`,
    `str.split('\n')` / `'\n'.join`, and `str.strip` / `str.lstrip(chars)`. */
module Text {

  /** `s[i..]` begins with `p`. */
  predicate OccursAt(s: string, p: string, i: int)
  {
    0 <= i && i + |p| <= |s| && s[i..i + |p|] == p
  }

  /** Python's `p in s` for strings. */
  predicate Contains(s: string, p: string)
  {
    exists i | 0 <= i <= |s| - |p| :: OccursAt(s, p, i)
  }

  /** Python's `s.startswith(p)`. */
  predicate StartsWith(s: string, p: string)
  {
    |p| <= |s| && s[..|p|] == p
  }

  // ---------------------------------------------------------------------------
  // Substring facts

  /** Each character of an occurrence matches the pattern. */
  lemma OccursAtChar(s: string, p: string, i: int, k: int)
    requires OccursAt(s, p, i) && 0 <= k < |p|
    ensures s[i + k] == p[k]
  {
    assert s[i..i + |p|][k] == s[i + k];
  }

  lemma StartsWithContains(s: string, p: string)
    requires StartsWith(s, p)
    ensures Contains(s, p)
  {
    assert OccursAt(s, p, 0);
  }

  lemma ContainsInside(a: string, s: string, b: string, p: string)
    requires Contains(s, p)
    ensures Contains(a + s + b, p)
  {
    var i :| 0 <= i <= |s| - |p| && OccursAt(s, p, i);
    assert (a + s + b)[|a| + i..|a| + i + |p|] == s[i..i + |p|];
    assert OccursAt(a + s + b, p, |a| + i);
  }

  lemma ContainsLeft(a: string, b: string, p: string)
    requires Contains(a, p)
    ensures Contains(a + b, p)
  {
    ContainsInside([], a, b, p);
    assert [] + a + b == a + b;
  }

  lemma ContainsRight(a: string, b: string, p: string)
    requires Contains(b, p)
    ensures Contains(a + b, p)
  {
    ContainsInside(a, b, [], p);
    assert a + b + [] == a + b;
  }

  lemma ContainsSelf(a: string, s: string, b: string)
    ensures Contains(a + s + b, s)
  {
    assert OccursAt(s, s, 0);
    ContainsInside(a, s, b, s);
  }

  /** A string that contains `p` contains everything `p` contains. */
  lemma ContainsTransitive(s: string, p: string, r: string)
    requires Contains(s, p) && Contains(p, r)
    ensures Contains(s, r)
  {
    var i :| 0 <= i <= |s| - |p| && OccursAt(s, p, i);
    var j :| 0 <= j <= |p| - |r| && OccursAt(p, r, j);
    OccursInside(s, p, i, r, j);
  }

  /** An occurrence of `r` inside an occurrence of `p` is an occurrence in `s`. */
  lemma OccursInside(s: string, p: string, i: int, r: string, j: int)
    requires OccursAt(s, p, i) && OccursAt(p, r, j)
    ensures OccursAt(s, r, i + j)
  {
    forall k | 0 <= k < |r|
      ensures s[i + j + k] == r[k]
    {
      OccursAtChar(p, r, j, k);
      OccursAtChar(s, p, i, j + k);
    }
    assert s[i + j..i + j + |r|] == r;
  }

  /** An occurrence that starts in `a` and runs into `b` must cross the last
      character of `a`; when that character cannot be part of `p`, every
      occurrence lies inside `a` or inside `b`. */
  lemma ContainsSplitAt(a: string, b: string, p: string)
    requires |a| > 0 && a[|a| - 1] !in p
    ensures Contains(a + b, p) ==> Contains(a, p) || Contains(b, p)
  {
    if Contains(a + b, p) {
      var i :| 0 <= i <= |a + b| - |p| && OccursAt(a + b, p, i);
      if i + |p| <= |a| {
        assert (a + b)[i..i + |p|] == a[i..i + |p|];
        assert OccursAt(a, p, i);
      } else if i >= |a| {
        assert (a + b)[i..i + |p|] == b[i - |a|..i - |a| + |p|];
        assert OccursAt(b, p, i - |a|);
      } else {
        OccursAtChar(a + b, p, i, |a| - 1 - i);
        assert false;
      }
    }
  }

  /** A fixed prefix none of whose characters can start `p` adds no occurrence of `p`. */
  lemma ContainsAfterPrefix(pre: string, s: string, p: string)
    requires |p| > 0 && p[0] !in pre
    ensures Contains(pre + s, p) ==> Contains(s, p)
  {
    if Contains(pre + s, p) {
      var i :| 0 <= i <= |pre + s| - |p| && OccursAt(pre + s, p, i);
      if i < |pre| {
        OccursAtChar(pre + s, p, i, 0);
        assert false;
      }
      assert (pre + s)[i..i + |p|] == s[i - |pre|..i - |pre| + |p|];
      assert OccursAt(s, p, i - |pre|);
    }
  }

  lemma NotContainsShorter(s: string, p: string)
    requires |s| < |p|
    ensures !Contains(s, p)
  {
  }

  /** `s` cannot contain `p` when some character of `p` never occurs in `s`. */
  lemma NotContainsMissingChar(s: string, p: string, k: nat)
    requires k < |p| && p[k] !in s
    ensures !Contains(s, p)
  {

  }

  // ---------------------------------------------------------------------------
  // str.lower(), ASCII letters only

  function LowerChar(c: char): char
  {
    if 'A' <= c <= 'Z' then (c as int + 32) as char else c
  }

  function Lower(s: string): (r: string)
    ensures |r| == |s|
    ensures forall i :: 0 <= i < |s| ==> r[i] == LowerChar(s[i])
  {
    if s == [] then [] else [LowerChar(s[0])] + Lower(s[1..])
  }

  lemma LowerConcat(a: string, b: string)
    ensures Lower(a + b) == Lower(a) + Lower(b)
  {
    var l := Lower(a + b);
    var r := Lower(a) + Lower(b);
    forall i | 0 <= i < |a + b| ensures l[i] == r[i] {
      if i < |a| {
        assert (a + b)[i] == a[i] && r[i] == Lower(a)[i];
      } else {
        assert (a + b)[i] == b[i - |a|] && r[i] == Lower(b)[i - |a|];
      }
    }
  }

  /** `lower()` is idempotent: matching against an already lowered text changes nothing. */
  lemma LowerIdempotent(s: string)
    ensures Lower(Lower(s)) == Lower(s)
  {
    assert forall i :: 0 <= i < |s| ==> Lower(Lower(s))[i] == Lower(s)[i];
  }

  // ---------------------------------------------------------------------------
  // str.replace(p, q): every non-overlapping occurrence, scanning left to right

  function ReplaceAll(s: string, p: string, q: string): string
    requires p != []
    decreases |s|
  {
    if |s| < |p| then s
    else if s[..|p|] == p then q + ReplaceAll(s[|p|..], p, q)
    else [s[0]] + ReplaceAll(s[1..], p, q)
  }

  /** `replace` leaves a string without the pattern untouched. */
  lemma {:induction false} ReplaceAllAbsent(s: string, p: string, q: string)
    requires p != [] && !Contains(s, p)
    ensures ReplaceAll(s, p, q) == s
    decreases |s|
  {
    if |s| >= |p| {
      assert !OccursAt(s, p, 0);
      assert s == [s[0]] + s[1..];
      if Contains(s[1..], p) {
        var i :| 0 <= i <= |s[1..]| - |p| && OccursAt(s[1..], p, i);
        assert s[1..][i..i + |p|] == s[i + 1..i + 1 + |p|];
        assert OccursAt(s, p, i + 1);
      }
      ReplaceAllAbsent(s[1..], p, q);
    }
  }

  /** A last character that cannot be part of the pattern is kept. */
  lemma {:induction false} ReplaceAllSnoc(a: string, c: char, p: string, q: string)
    requires p != [] && c !in p
    ensures ReplaceAll(a + [c], p, q) == ReplaceAll(a, p, q) + [c]
    decreases |a|
  {
    var s := a + [c];
    if |s| < |p| {
    } else if s[..|p|] == p {
      if |a| < |p| {
        OccursAtChar(s, p, 0, |a|);
        assert false;
      }
      assert a[..|p|] == p;
      assert s[|p|..] == a[|p|..] + [c];
      ReplaceAllSnoc(a[|p|..], c, p, q);
    } else if |a| == 0 {
      assert s[1..] == [];
    } else {
      assert s[1..] == a[1..] + [c];
      ReplaceAllSnoc(a[1..], c, p, q);
      if |a| >= |p| {
        assert a[..|p|] == s[..|p|];
      }
    }
  }

  lemma OccursAtTail(s: string, p: string, i: nat)
    requires s != []
    ensures OccursAt(s[1..], p, i) <==> OccursAt(s, p, i + 1)
  {
    if i + |p| <= |s[1..]| {
      assert s[1..][i..i + |p|] == s[i + 1..i + 1 + |p|];
    }
  }

  /** Once no occurrence starts inside `x`, `replace` leaves `x` as it is. */
  lemma {:induction false} ReplaceAllKeepsPrefix(x: string, z: string, p: string, q: string)
    requires p != []
    requires forall i | 0 <= i < |x| :: !OccursAt(x + z, p, i)
    ensures ReplaceAll(x + z, p, q) == x + ReplaceAll(z, p, q)
    decreases |x|
  {
    if |x| > 0 {
      var s := x + z;
      var t := x[1..] + z;
      assert s[1..] == t;
      forall i | 0 <= i < |x| - 1
        ensures !OccursAt(t, p, i)
      {
        OccursAtTail(s, p, i);
      }
      ReplaceAllKeepsPrefix(x[1..], z, p, q);
      assert [x[0]] + x[1..] == x;
      if |s| >= |p| {
        assert !OccursAt(s, p, 0);
        assert s[..|p|] != p;
        calc {
          ReplaceAll(s, p, q);
          [s[0]] + ReplaceAll(t, p, q);
          [x[0]] + (x[1..] + ReplaceAll(z, p, q));
          ([x[0]] + x[1..]) + ReplaceAll(z, p, q);
        }
      } else {
        assert ReplaceAll(z, p, q) == z;
      }
    } else {
      assert x + z == z;
    }
  }

  lemma ReplaceAllAtStart(p: string, y: string, q: string)
    requires p != []
    ensures ReplaceAll(p + y, p, q) == q + ReplaceAll(y, p, q)
  {
    assert (p + y)[..|p|] == p;
    assert (p + y)[|p|..] == y;
  }

  // ---------------------------------------------------------------------------
  // str.split('\n') and '\n'.join(...)

  function Split(s: string): (r: seq<string>)
    ensures |r| >= 1
    ensures forall i | 0 <= i < |r| :: '\n' !in r[i]
  {
    if s == [] then [[]]
    else if s[0] == '\n' then [[]] + Split(s[1..])
    else var t := Split(s[1..]); [[s[0]] + t[0]] + t[1..]
  }

  function Join(ls: seq<string>): string
  {
    if |ls| == 0 then []
    else if |ls| == 1 then ls[0]
    else ls[0] + "\n" + Join(ls[1..])
  }

  lemma {:induction false} SplitNoNewline(s: string)
    requires '\n' !in s
    ensures Split(s) == [s]
  {
    if s != [] {
      SplitNoNewline(s[1..]);
      assert [s[0]] + s[1..] == s;
    }
  }

  /** A newline-free text glues onto the first line of what follows. */
  lemma {:induction false} SplitGlue(a: string, b: string)
    requires '\n' !in a
    ensures Split(a + b) == [a + Split(b)[0]] + Split(b)[1..]
  {
    if a != [] {
      assert (a + b)[1..] == a[1..] + b;
      SplitGlue(a[1..], b);
      assert [a[0]] + (a[1..] + Split(b)[0]) == a + Split(b)[0];
    } else {
      assert a + b == b;
      assert a + Split(b)[0] == Split(b)[0];
    }
  }

  /** Splitting at a newline concatenates the two halves' lines. */
  lemma {:induction false} SplitAppend(a: string, b: string)
    ensures Split(a + "\n" + b) == Split(a) + Split(b)
  {
    if a == [] {
      assert a + "\n" + b == "\n" + b;
      assert ("\n" + b)[1..] == b;
    } else if a[0] == '\n' {
      assert (a + "\n" + b)[1..] == a[1..] + "\n" + b;
      SplitAppend(a[1..], b);
    } else {
      assert (a + "\n" + b)[1..] == a[1..] + "\n" + b;
      SplitAppend(a[1..], b);
    }
  }

  /** Joining two non-empty runs of lines. */
  lemma {:induction false} JoinAppend(xs: seq<string>, ys: seq<string>)
    requires |xs| > 0 && |ys| > 0
    ensures Join(xs + ys) == Join(xs) + "\n" + Join(ys)
  {
    if |xs| == 1 {
      assert (xs + ys)[1..] == ys;
    } else {
      assert (xs + ys)[1..] == xs[1..] + ys;
      JoinAppend(xs[1..], ys);
    }
  }

  // Proof helper: `Join` of a line put in front, in the right-nested shape
  // the other lemmas use.
  lemma JoinCons(x: string, ls: seq<string>)
    requires |ls| >= 1
    ensures Join([x] + ls) == x + ("\n" + Join(ls))
  {
    var l := [x] + ls;
    assert l[0] == x && l[1..] == ls && |l| >= 2;
    assert Join(l) == x + "\n" + Join(ls);
  }

  /** Lines of a joined text: each joined piece contributes its own lines. */
  function SplitEach(ls: seq<string>): seq<string>
  {
    if ls == [] then [] else Split(ls[0]) + SplitEach(ls[1..])
  }

  lemma {:induction false} SplitJoin(ls: seq<string>)
    requires |ls| > 0
    ensures Split(Join(ls)) == SplitEach(ls)
  {
    if |ls| > 1 {
      SplitAppend(ls[0], Join(ls[1..]));
      SplitJoin(ls[1..]);
    }
  }

  lemma {:induction false} SplitEachPlain(ls: seq<string>)
    requires forall i | 0 <= i < |ls| :: '\n' !in ls[i]
    ensures SplitEach(ls) == ls
  {
    if ls != [] {
      SplitNoNewline(ls[0]);
      SplitEachPlain(ls[1..]);
    }
  }

  lemma SplitEachAppend(xs: seq<string>, ys: seq<string>)
    ensures SplitEach(xs + ys) == SplitEach(xs) + SplitEach(ys)
  {
    if xs != [] {
      assert (xs + ys)[1..] == xs[1..] + ys;
      SplitEachAppend(xs[1..], ys);
    } else {
      assert xs + ys == ys;
    }
  }

  /** Splitting lines around one piece that may itself hold several lines. */
  lemma SplitEachAround(pre: seq<string>, x: string, post: seq<string>)
    requires forall i | 0 <= i < |pre| :: '\n' !in pre[i]
    requires forall i | 0 <= i < |post| :: '\n' !in post[i]
    ensures SplitEach(pre + ([x] + post)) == pre + (Split(x) + post)
  {
    SplitEachAppend(pre, [x] + post);
    SplitEachPlain(pre);
    SplitEachPlain(post);
    assert ([x] + post)[1..] == post;
  }

  /** Round trip: the lines of a text join back to that text. */
  lemma {:induction false} JoinSplit(s: string)
    ensures Join(Split(s)) == s
  {
    if s == [] {
    } else if s[0] == '\n' {
      JoinSplit(s[1..]);
      assert s == "\n" + s[1..];
    } else {
      var t := Split(s[1..]);
      JoinSplit(s[1..]);
      if |t| == 1 {
        assert Split(s) == [[s[0]] + t[0]];
      } else {
        assert Split(s)[1..] == t[1..];
        assert Join(t) == t[0] + "\n" + Join(t[1..]);
      }
      assert s == [s[0]] + s[1..];
    }
  }

  /** Round trip the other way: newline-free lines survive join then split. */
  lemma SplitJoinPlain(ls: seq<string>)
    requires |ls| > 0
    requires forall i | 0 <= i < |ls| :: '\n' !in ls[i]
    ensures Split(Join(ls)) == ls
  {
    SplitJoin(ls);
    SplitEachPlain(ls);
  }

  /** A character that cannot be part of `p` separates occurrences: each lies
      wholly before it or wholly after it. */
  lemma ContainsAroundChar(a: string, c: char, b: string, p: string)
    requires c !in p
    ensures Contains(a + [c] + b, p) ==> Contains(a, p) || Contains(b, p)
  {
    var s := a + [c] + b;
    if Contains(s, p) {
      var i :| 0 <= i <= |s| - |p| && OccursAt(s, p, i);
      if i + |p| <= |a| {
        assert s[i..i + |p|] == a[i..i + |p|];
        assert OccursAt(a, p, i);
      } else if i > |a| {
        assert s[i..i + |p|] == b[i - |a| - 1..i - |a| - 1 + |p|];
        assert OccursAt(b, p, i - |a| - 1);
      } else {
        OccursAtChar(s, p, i, |a| - i);
        assert false;
      }
    }
  }

  /** A pattern without a newline occurs in a joined text only inside one of its pieces. */
  lemma {:induction false} ContainsJoin(ls: seq<string>, p: string)
    requires p != [] && '\n' !in p
    requires forall i | 0 <= i < |ls| :: !Contains(ls[i], p)
    ensures !Contains(Join(ls), p)
  {
    if |ls| > 1 {
      ContainsJoin(ls[1..], p);
      ContainsAroundChar(ls[0], '\n', Join(ls[1..]), p);
      assert ls[0] + "\n" + Join(ls[1..]) == ls[0] + ['\n'] + Join(ls[1..]);
    }
  }

  /** Before a newline, a pattern without one occurs only inside the text before it. */
  lemma NoOccurrenceBeforeNewline(x: string, s: string, p: string)
    requires p != [] && '\n' !in p && !Contains(x, p)
    ensures forall i | 0 <= i < |x| + 1 :: !OccursAt(x + "\n" + s, p, i)
  {
    var t := x + "\n" + s;
    forall i | 0 <= i < |x| + 1
      ensures !OccursAt(t, p, i)
    {
      if OccursAt(t, p, i) {
        if i + |p| <= |x| {
          assert t[i..i + |p|] == x[i..i + |p|];
          assert OccursAt(x, p, i);
          assert false;
        } else {
          OccursAtChar(t, p, i, |x| - i);
          assert false;
        }
      }
    }
  }

  /** Every piece of a joined text occurs in it. */
  lemma {:induction false} JoinContainsPiece(ls: seq<string>, k: nat)
    requires k < |ls|
    ensures Contains(Join(ls), ls[k])
  {
    if |ls| == 1 {
      ContainsSelf([], ls[0], []);
      assert [] + ls[0] + [] == ls[0];
    } else if k == 0 {
      ContainsSelf([], ls[0], "\n" + Join(ls[1..]));
      assert [] + ls[0] + ("\n" + Join(ls[1..])) == Join(ls);
    } else {
      JoinContainsPiece(ls[1..], k - 1);
      ContainsInside(ls[0] + "\n", Join(ls[1..]), [], ls[k]);
      assert ls[0] + "\n" + Join(ls[1..]) + [] == Join(ls);
    }
  }

  // ---------------------------------------------------------------------------
  // str.strip(), str.lstrip(chars); whitespace as Python's str.isspace() on ASCII

  predicate IsSpace(c: char)
  {
    c == ' ' || c == '\t' || c == '\n' || c == '\r' || c == '\U{B}' || c == '\U{C}'
    || ('\U{1C}' <= c <= '\U{1F}')
  }

  function LStripSpace(s: string): (r: string)
    ensures |r| <= |s| && r == s[|s| - |r|..]
    ensures r == [] || !IsSpace(r[0])
    ensures forall i | 0 <= i < |s| - |r| :: IsSpace(s[i])
  {
    if s != [] && IsSpace(s[0]) then LStripSpace(s[1..]) else s
  }

  function RStripSpace(s: string): (r: string)
    ensures |r| <= |s| && r == s[..|r|]
    ensures r == [] || !IsSpace(r[|r| - 1])
    ensures forall i | |r| <= i < |s| :: IsSpace(s[i])
  {
    if s != [] && IsSpace(s[|s| - 1]) then RStripSpace(s[..|s| - 1]) else s
  }

  function Strip(s: string): string
  {
    RStripSpace(LStripSpace(s))
  }

  /** `s.strip() != ""`: some character is not whitespace. */
  predicate HasText(s: string)
  {
    exists i | 0 <= i < |s| :: !IsSpace(s[i])
  }

  /** A newline in front of text that starts with a non-space goes. */
  lemma LStripNewline(y: string)
    requires y != [] && !IsSpace(y[0])
    ensures LStripSpace("\n" + y) == y
  {
    assert ("\n" + y)[1..] == y;
    assert ("\n" + y)[0] == '\n';
  }

  lemma {:induction false} LStripSpaceConcat(a: string, b: string)
    requires HasText(a)
    ensures LStripSpace(a + b) == LStripSpace(a) + b
    ensures LStripSpace(a) != []
  {
    var i :| 0 <= i < |a| && !IsSpace(a[i]);
    assert (a + b)[0] == a[0];
    if IsSpace(a[0]) {
      assert a[1..][i - 1] == a[i];
      assert (a + b)[1..] == a[1..] + b;
      LStripSpaceConcat(a[1..], b);
      assert LStripSpace(a + b) == LStripSpace(a[1..] + b);
      assert LStripSpace(a) == LStripSpace(a[1..]);
    } else {
      assert LStripSpace(a + b) == a + b;
      assert LStripSpace(a) == a;
    }
  }

  lemma {:induction false} LStripSpaceKeepsOut(s: string, c: char)
    requires c !in s
    ensures c !in LStripSpace(s)
  {
    if s != [] && IsSpace(s[0]) {
      assert forall k | 0 <= k < |s[1..]| :: s[1..][k] == s[k + 1];
      LStripSpaceKeepsOut(s[1..], c);
    }
  }

  /** Leading whitespace is skipped whole. */
  lemma {:induction false} LStripSpaceBlank(a: string, b: string)
    requires !HasText(a)
    ensures LStripSpace(a + b) == LStripSpace(b)
  {
    if a != [] {
      assert (a + b)[0] == a[0] && IsSpace(a[0]);
      assert (a + b)[1..] == a[1..] + b;
      assert !HasText(a[1..]) by {
        forall i | 0 <= i < |a[1..]| ensures IsSpace(a[1..][i]) { assert a[1..][i] == a[i + 1]; }
      }
      LStripSpaceBlank(a[1..], b);
    } else {
      assert a + b == b;
    }
  }

  /** `line.lstrip('> ')`: drops any leading run of '>' and ' ' characters. */
  function LStripQuote(s: string): (r: string)
    ensures |r| <= |s| && r == s[|s| - |r|..]
    ensures r == [] || (r[0] != '>' && r[0] != ' ')
    ensures forall i | 0 <= i < |s| - |r| :: s[i] == '>' || s[i] == ' '
  {
    if s != [] && (s[0] == '>' || s[0] == ' ') then LStripQuote(s[1..]) else s
  }

  lemma StripLeadingSpace(s: string)
    ensures Strip(" " + s) == Strip(s)
  {
    assert (" " + s)[1..] == s;
  }

  // ---------------------------------------------------------------------------
  // Index helpers

  /** The text before the first `c` (all of `s` when there is none): `s.split(c)[0]`. */
  function TakeUntil(s: string, c: char): (r: string)
    ensures c !in r
    ensures |r| <= |s| && r == s[..|r|]
    ensures |r| < |s| ==> s[|r|] == c
  {
    if s == [] || s[0] == c then [] else [s[0]] + TakeUntil(s[1..], c)
  }

  /** The text after the first `c`, when there is one. */
  function After(s: string, c: char): (r: string)
    requires c in s
    ensures |r| < |s|
    ensures s == TakeUntil(s, c) + [c] + r
  {
    if s[0] == c then s[1..] else After(s[1..], c)
  }

  lemma {:induction false} TakeUntilConcat(a: string, b: string, c: char)
    requires c !in a
    ensures TakeUntil(a + b, c) == a + TakeUntil(b, c)
  {
    if a == [] {
      assert a + b == b;
    } else {
      assert (a + b)[0] == a[0] != c;
      assert (a + b)[1..] == a[1..] + b;
      TakeUntilConcat(a[1..], b, c);
      assert a == [a[0]] + a[1..];
    }
  }

  lemma {:induction false} AfterConcat(a: string, b: string, c: char)
    requires c !in a
    ensures c in a + [c] + b
    ensures After(a + [c] + b, c) == b
  {
    var s := a + [c] + b;
    assert s[|a|] == c;
    TakeUntilConcat(a, [c] + b, c);
    assert TakeUntil(s, c) == a by { assert s == a + ([c] + b); }
    var r := After(s, c);
    assert s == a + [c] + r;
    assert r == s[|a| + 1..] == b;
  }

  // ---------------------------------------------------------------------------
  // `str.replace` over a text made of lines

  /** No line of `ls` contains `p`. */
  predicate Nowhere(ls: seq<string>, p: string)
  {
    forall i | 0 <= i < |ls| :: !Contains(ls[i], p)
  }

  /** No line of `ls` but the `k`-th contains `p`. */
  predicate OnlyAt(ls: seq<string>, p: string, k: int)
  {
    forall i | 0 <= i < |ls| && i != k :: !Contains(ls[i], p)
  }

  lemma NowhereAppend(a: seq<string>, b: seq<string>, p: string)
    requires Nowhere(a, p) && Nowhere(b, p)
    ensures Nowhere(a + b, p)
  {
    forall i | 0 <= i < |a + b| ensures !Contains((a + b)[i], p) {
      if i >= |a| { assert (a + b)[i] == b[i - |a|]; }
    }
  }

  lemma OnlyAtAppend(a: seq<string>, b: seq<string>, p: string, k: int)
    requires OnlyAt(a, p, k) && 0 <= k < |a| && Nowhere(b, p)
    ensures OnlyAt(a + b, p, k)
  {
    forall i | 0 <= i < |a + b| && i != k ensures !Contains((a + b)[i], p) {
      if i >= |a| { assert (a + b)[i] == b[i - |a|]; }
    }
  }

  lemma OnlyAtShift(a: seq<string>, b: seq<string>, p: string, k: int)
    requires Nowhere(a, p) && OnlyAt(b, p, k)
    ensures OnlyAt(a + b, p, |a| + k)
  {
    forall i | 0 <= i < |a + b| && i != |a| + k ensures !Contains((a + b)[i], p) {
      if i >= |a| { assert (a + b)[i] == b[i - |a|]; }
    }
  }

  /** Changing another line to one without `p` keeps `p` to its line. */
  lemma OnlyAtUpdate(ls: seq<string>, p: string, k: int, j: int, x: string)
    requires OnlyAt(ls, p, k) && 0 <= j < |ls| && !Contains(x, p)
    ensures OnlyAt(ls[j := x], p, k)
  {
  }

  /** Changing the one line with `p` to one without leaves `p` nowhere. */
  lemma OnlyAtFill(ls: seq<string>, p: string, k: int, x: string)
    requires OnlyAt(ls, p, k) && 0 <= k < |ls| && !Contains(x, p)
    ensures Nowhere(ls[k := x], p)
  {
  }

  /** A pattern without a newline that no line contains is not replaced. */
  lemma ReplaceNowhere(ls: seq<string>, p: string, q: string)
    requires p != [] && '\n' !in p && Nowhere(ls, p)
    ensures ReplaceAll(Join(ls), p, q) == Join(ls)
  {
    ContainsJoin(ls, p);
    ReplaceAllAbsent(Join(ls), p, q);
  }

  /** A line that is exactly the pattern, with the pattern on no other line:
      `replace` rewrites that line and nothing else. */
  lemma ReplaceLineAt(ls: seq<string>, k: int, q: string)
    requires 0 < k < |ls| - 1 && ls[k] != [] && '\n' !in ls[k]
    requires OnlyAt(ls, ls[k], k)
    ensures ReplaceAll(Join(ls), ls[k], q) == Join(ls[k := q])
  {
    var x, a, b := ls[k], ls[..k], ls[k + 1..];
    assert ls == a + ([x] + b);
    assert ls[k := q] == a + ([q] + b);
    assert Nowhere(a, x) by {
      forall i | 0 <= i < |a| ensures !Contains(a[i], x) { assert a[i] == ls[i]; }
    }
    assert Nowhere(b, x) by {
      forall i | 0 <= i < |b| ensures !Contains(b[i], x) { assert b[i] == ls[k + 1 + i]; }
    }
    ContainsJoin(a, x);
    ContainsJoin(b, x);
    JoinAppend(a, [x] + b);
    JoinCons(x, b);
    JoinAppend(a, [q] + b);
    JoinCons(q, b);
    ReplaceAround(Join(a), x, Join(b), q);
  }

  lemma ReplaceAround(a: string, x: string, b: string, q: string)
    requires x != [] && '\n' !in x && !Contains(a, x) && !Contains(b, x)
    ensures ReplaceAll(a + "\n" + (x + ("\n" + b)), x, q) == a + "\n" + (q + ("\n" + b))
  {
    NoOccurrenceBeforeNewline(a, x + ("\n" + b), x);
    ReplaceAllKeepsPrefix(a + "\n", x + ("\n" + b), x, q);
    ReplaceAllAtStart(x, "\n" + b, q);
    ContainsAfterPrefix("\n", b, x);
    ReplaceAllAbsent("\n" + b, x, q);
  }

  /** A keyed line `pre + v`: when `pre` splits at a character `p` lacks,
      with none of `p`'s first character after it and some character of `p`
      missing before it, `p` occurs in the line only inside `v`. */
  lemma KeyedClear(pre: string, v: string, p: string, k: int, j: int)
    requires 0 <= k < |pre| && 0 <= j < |p|
    requires pre[k] !in p && p[j] !in pre && p[0] !in pre[k + 1..]
    requires !Contains(v, p)
    ensures !Contains(pre + v, p)
  {
    assert pre + v == pre[..k] + [pre[k]] + (pre[k + 1..] + v);
    ContainsAroundChar(pre[..k], pre[k], pre[k + 1..] + v, p);
    NotContainsMissingChar(pre[..k], p, j);
    ContainsAfterPrefix(pre[k + 1..], v, p);
  }
}
