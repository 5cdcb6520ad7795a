/**
 * String operations the two components rely on, with the semantics of the
 * corresponding JavaScript built-ins: `endsWith`, `includes`, `replace` with a
 * string pattern, `repeat`, `toLowerCase`, `split` and `join` on a
 * one-character separator, and `map(...).join("")`.
 */
module Text {
  import opened Wrappers

  predicate EndsWith(s: string, suffix: string) {
    |suffix| <= |s| && s[|s| - |suffix|..] == suffix
  }

  /** `t` occurs in `s` starting at index `i`. */
  predicate OccursAt(s: string, t: string, i: int) {
    0 <= i && i + |t| <= |s| && s[i..i + |t|] == t
  }

  /** `s.includes(t)` */
  predicate Contains(s: string, t: string) {
    exists i | 0 <= i <= |s| - |t| :: OccursAt(s, t, i)
  }

  /**
   * `s.replace(t, v)` for a string pattern `t`: the first occurrence of `t` is
   * replaced by `v`; without an occurrence `s` is returned unchanged.
   * Replacement patterns (`$&`, `$$`, ...) are not interpreted.
   */
  function ReplaceFirst(s: string, t: string, v: string): string
    decreases |s|
  {
    if OccursAt(s, t, 0) then v + s[|t|..]
    else if s == [] then s
    else [s[0]] + ReplaceFirst(s[1..], t, v)
  }

  /** Occurrences in the rest of a text are those in the text, one index further. */
  lemma OccursShift(s: string, t: string, j: nat)
    requires s != []
    ensures OccursAt(s[1..], t, j) <==> OccursAt(s, t, j + 1)
  {
    if j + 1 + |t| <= |s| {
      assert s[1..][j..j + |t|] == s[j + 1..j + 1 + |t|];
    }
  }

  /** Replacing acts at the first occurrence and keeps both sides of it verbatim. */
  lemma {:induction false} ReplaceFirstAt(s: string, t: string, v: string, i: nat)
    requires OccursAt(s, t, i)
    requires forall j :: 0 <= j < i ==> !OccursAt(s, t, j)
    ensures ReplaceFirst(s, t, v) == s[..i] + v + s[i + |t|..]
  {
    if i > 0 {
      var rest := s[1..];
      OccursShift(s, t, i - 1);
      forall j | 0 <= j < i - 1
        ensures !OccursAt(rest, t, j)
      {
        OccursShift(s, t, j);
      }
      ReplaceFirstAt(rest, t, v, i - 1);
      assert [s[0]] + rest[..i - 1] == s[..i];
      assert rest[i - 1 + |t|..] == s[i + |t|..];
    }
  }

  /** A pattern that does not occur leaves the text unchanged. */
  lemma {:induction false} ReplaceFirstAbsent(s: string, t: string, v: string)
    requires !Contains(s, t)
    ensures ReplaceFirst(s, t, v) == s
  {
    assert !OccursAt(s, t, 0);
    if s != [] {
      var rest := s[1..];
      assert !Contains(rest, t) by {
        forall j | 0 <= j <= |rest| - |t|
          ensures !OccursAt(rest, t, j)
        {
          OccursShift(s, t, j);
        }
      }
      ReplaceFirstAbsent(rest, t, v);
      assert [s[0]] + rest == s;
    }
  }

  /** No character of `s` is `c`. */
  predicate Lacks(s: string, c: char) {
    forall i :: 0 <= i < |s| ==> s[i] != c
  }

  /**
   * A pattern that opens with a doubled character (`{{` followed by another
   * character), placed after a prefix that holds no such pair, is found right
   * after that prefix: the prefix and everything after the pattern (further
   * occurrences included) are kept.
   */
  lemma ReplaceFirstAfter(a: string, t: string, b: string, v: string)
    requires |t| >= 3 && t[1] == t[0] && t[2] != t[0]
    requires !Contains(a, t[..2])
    ensures ReplaceFirst(a + t + b, t, v) == a + v + b
  {
    var s := a + t + b;
    assert s[|a|..|a| + |t|] == t;
    forall j | 0 <= j < |a|
      ensures !OccursAt(s, t, j)
    {
      if j + |t| <= |s| {
        if j + 2 <= |a| {
          assert !OccursAt(a, t[..2], j);
          assert s[j..j + 2] == a[j..j + 2];
          assert s[j..j + |t|][..2] == s[j..j + 2];
        } else {
          assert s[j..j + |t|][2] == s[|a| + 1] == t[1];
        }
      }
    }
    ReplaceFirstAt(s, t, v, |a|);
    assert s[..|a|] == a;
    assert s[|a| + |t|..] == b;
  }

  /** What does not occur in a text does not occur in its prefix. */
  lemma AbsentFromPrefix(a: string, b: string, t: string)
    requires !Contains(a + b, t)
    ensures !Contains(a, t)
  {
    forall i | 0 <= i <= |a| - |t|
      ensures !OccursAt(a, t, i)
    {
      assert !OccursAt(a + b, t, i);
      assert (a + b)[i..i + |t|] == a[i..i + |t|];
    }
  }

  /** A text without `c` holds no doubled `c`. */
  lemma LacksPair(s: string, c: char)
    requires Lacks(s, c)
    ensures !Contains(s, [c, c])
  {
    forall i | 0 <= i <= |s| - 2
      ensures !OccursAt(s, [c, c], i)
    {
      assert s[i..i + 2][0] == s[i];
    }
  }

  /** Two texts without a doubled `c` join into one without, unless a `c` ends the first and starts the second. */
  lemma PairAbsentConcat(a: string, b: string, c: char)
    requires !Contains(a, [c, c]) && !Contains(b, [c, c])
    requires a == [] || b == [] || a[|a| - 1] != c || b[0] != c
    ensures !Contains(a + b, [c, c])
  {
    var s := a + b;
    forall i | 0 <= i <= |s| - 2
      ensures !OccursAt(s, [c, c], i)
    {
      if i + 2 <= |a| {
        assert !OccursAt(a, [c, c], i);
        assert s[i..i + 2] == a[i..i + 2];
      } else if i >= |a| {
        assert !OccursAt(b, [c, c], i - |a|);
        assert s[i..i + 2] == b[i - |a|..i - |a| + 2];
      } else {
        assert s[i..i + 2] == [a[|a| - 1], b[0]];
      }
    }
  }

  lemma LacksConcat(a: string, b: string, c: char)
    requires Lacks(a, c) && Lacks(b, c)
    ensures Lacks(a + b, c)
  {
    forall i | 0 <= i < |a + b|
      ensures (a + b)[i] != c
    {
      if i >= |a| { assert (a + b)[i] == b[i - |a|]; }
    }
  }

  /** A `{{`-placeholder behind a prefix without `{{` is replaced there. */
  lemma ReplaceNext(done: string, t: string, v: string, p: string, next: string, rest: string)
    requires |t| >= 3 && t[..2] == "{{" && t[2] != '{'
    requires !Contains(done, "{{")
    ensures ReplaceFirst(done + t + (p + next + rest), t, v) == (done + v + p) + next + rest
  {
    ReplaceFirstAfter(done, t, p + next + rest, v);
    assert done + v + (p + next + rest) == (done + v + p) + next + rest;
  }

  /** Text placed between two others is contained in the whole. */
  lemma ContainsMiddle(a: string, t: string, b: string)
    ensures Contains(a + t + b, t)
  {
    assert OccursAt(a + t + b, t, |a|) by {
      assert (a + t + b)[|a|..|a| + |t|] == t;
    }
  }

  /** `c.repeat(n)` for a one-character string `c`. */
  function Repeat(c: char, n: nat): (r: string)
    ensures |r| == n
    ensures forall i :: 0 <= i < n ==> r[i] == c
  {
    if n == 0 then "" else [c] + Repeat(c, n - 1)
  }

  /** Lower-casing of one character (ASCII letters only). */
  function LowerChar(c: char): (r: char)
    ensures 'A' <= c <= 'Z' ==> r as int == c as int + 32
    ensures !('A' <= c <= 'Z') ==> r == c
  {
    if 'A' <= c <= 'Z' then (c as int + 32) as char else c
  }

  /** `s.toLowerCase()` (ASCII letters only). */
  function Lower(s: string): (r: string)
    ensures |r| == |s|
    ensures forall i :: 0 <= i < |s| ==> r[i] == LowerChar(s[i])
  {
    if s == [] then [] else [LowerChar(s[0])] + Lower(s[1..])
  }

  /** Lower-casing twice is lower-casing once. */
  lemma LowerIdempotent(s: string)
    ensures Lower(Lower(s)) == Lower(s)
  {
    assert forall i :: 0 <= i < |s| ==> LowerChar(LowerChar(s[i])) == LowerChar(s[i]);
  }

  /** `xs.map(f).join("")` */
  function ConcatMap<T>(xs: seq<T>, f: T -> string): string {
    if xs == [] then "" else f(xs[0]) + ConcatMap(xs[1..], f)
  }

  /** The text of element `i` sits between the texts of the elements before and after it. */
  lemma {:induction false} ConcatMapAt<T>(xs: seq<T>, f: T -> string, i: nat)
    requires i < |xs|
    ensures ConcatMap(xs, f) == ConcatMap(xs[..i], f) + f(xs[i]) + ConcatMap(xs[i + 1..], f)
  {
    if i == 0 {
      assert xs[..0] == [];
      assert xs[1..] == xs[i + 1..];
    } else {
      var rest := xs[1..];
      ConcatMapAt(rest, f, i - 1);
      assert rest[..i - 1] == xs[..i][1..];
      assert rest[i - 1] == xs[i];
      assert rest[i..] == xs[i + 1..];
      assert xs[..i][0] == xs[0];
    }
  }

  /** `s.split(sep)`: never empty; `"".split(sep)` is `[""]`. */
  function Split(s: string, sep: char): (r: seq<string>)
    ensures |r| >= 1
    ensures forall k :: 0 <= k < |r| ==> Lacks(r[k], sep)
  {
    if s == [] then [""]
    else
      var rest := Split(s[1..], sep);
      if s[0] == sep then [""] + rest
      else [[s[0]] + rest[0]] + rest[1..]
  }

  /** `lines.join(sep)` */
  function Join(lines: seq<string>, sep: char): string {
    if |lines| == 0 then ""
    else if |lines| == 1 then lines[0]
    else lines[0] + [sep] + Join(lines[1..], sep)
  }

  /** Joining the pieces of a split gives back the text. */
  lemma {:induction false} JoinSplit(s: string, sep: char)
    ensures Join(Split(s, sep), sep) == s
  {
    if s != [] {
      var rest := Split(s[1..], sep);
      JoinSplit(s[1..], sep);
      if s[0] == sep {
        assert Split(s, sep) == [""] + rest;
        assert ([""] + rest)[1..] == rest;
        assert s == [sep] + s[1..];
      } else {
        var r := Split(s, sep);
        assert r == [[s[0]] + rest[0]] + rest[1..];
        if |rest| == 1 {
          assert r == [[s[0]] + rest[0]];
        } else {
          assert r[1..] == rest[1..];
          assert Join(rest, sep) == rest[0] + [sep] + Join(rest[1..], sep);
        }
      }
    }
  }

  /** Splitting a join of separator-free pieces gives back the pieces. */
  lemma {:induction false} SplitJoin(lines: seq<string>, sep: char)
    requires |lines| >= 1
    requires forall k :: 0 <= k < |lines| ==> Lacks(lines[k], sep)
    ensures Split(Join(lines, sep), sep) == lines
  {
    if |lines| == 1 {
      SplitPlain(lines[0], [], sep);
      assert lines[0] + [] == lines[0];
    } else {
      SplitJoin(lines[1..], sep);
      var tail := Join(lines[1..], sep);
      assert Split([sep] + tail, sep) == [""] + lines[1..] by {
        assert ([sep] + tail)[1..] == tail;
      }
      SplitPlain(lines[0], [sep] + tail, sep);
      assert lines[0] + [sep] + tail == lines[0] + ([sep] + tail);
      assert ([""] + lines[1..])[1..] == lines[1..];
      assert lines[0] + "" == lines[0];
      assert [lines[0]] + lines[1..] == lines;
    }
  }

  /** A separator-free prefix only extends the first piece of a split. */
  lemma {:induction false} SplitPlain(a: string, b: string, sep: char)
    requires Lacks(a, sep)
    ensures Split(a + b, sep) == [a + Split(b, sep)[0]] + Split(b, sep)[1..]
  {
    if a != [] {
      SplitPlain(a[1..], b, sep);
      assert (a + b)[0] == a[0];
      assert (a + b)[1..] == a[1..] + b;
      assert [a[0]] + (a[1..] + Split(b, sep)[0]) == a + Split(b, sep)[0];
    } else {
      assert a + b == b;
      assert a + Split(b, sep)[0] == Split(b, sep)[0];
      assert [Split(b, sep)[0]] + Split(b, sep)[1..] == Split(b, sep);
    }
  }
}
