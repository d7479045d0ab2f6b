/**
 * The string operations the formatter relies on: `Join` is Python's
 * `sep.join(parts)`; `Split` (Python's `s.split(c)` for a one-character
 * separator) and `Occurrences` are the reference definitions the formatted
 * message is checked against.
 */
module Text {

  /** `sep.join(parts)`: the parts in order, `sep` between neighbours, none at the end. */
  function Join(sep: string, parts: seq<string>): (r: string)
    ensures |parts| == 0 ==> r == ""
    ensures |parts| >= 1 ==> |r| >= |parts[0]| && r[..|parts[0]|] == parts[0]
    ensures |parts| >= 2 ==> |r| >= |parts[0]| + |sep| + |parts[|parts| - 1]|
    decreases |parts|
  {
    if |parts| == 0 then ""
    else if |parts| == 1 then parts[0]
    else parts[0] + sep + Join(sep, parts[1..])
  }

  /** `s.split(c)`: the maximal runs of `s` between occurrences of `c`. */
  function Split(s: string, c: char): (r: seq<string>)
    ensures |r| >= 1
    ensures forall p :: p in r ==> c !in p
    decreases |s|
  {
    if |s| == 0 then [""]
    else
      var rest := Split(s[1..], c);
      if s[0] == c then [""] + rest
      else [[s[0]] + rest[0]] + rest[1..]
  }

  /** The number of times `c` occurs in `s`. */
  function Occurrences(s: string, c: char): (r: nat)
    decreases |s|
  {
    if |s| == 0 then 0
    else (if s[0] == c then 1 else 0) + Occurrences(s[1..], c)
  }

  lemma {:induction false} OccurrencesAppend(a: string, b: string, c: char)
    ensures Occurrences(a + b, c) == Occurrences(a, c) + Occurrences(b, c)
    decreases |a|
  {
    if |a| > 0 {
      assert (a + b)[1..] == a[1..] + b;
      OccurrencesAppend(a[1..], b, c);
    } else {
      assert a + b == b;
    }
  }

  lemma {:induction false} OccurrencesAbsent(a: string, c: char)
    requires c !in a
    ensures Occurrences(a, c) == 0
    decreases |a|
  {
    if |a| > 0 {
      OccurrencesAbsent(a[1..], c);
    }
  }

  /** A string without the separator splits into itself alone. */
  lemma {:induction false} SplitWithoutSeparator(a: string, c: char)
    requires c !in a
    ensures Split(a, c) == [a]
    decreases |a|
  {
    if |a| > 0 {
      SplitWithoutSeparator(a[1..], c);
      assert [a[0]] + a[1..] == a;
    }
  }

  /** Splitting stops at the first separator and resumes after it. */
  lemma {:induction false} SplitAtFirstSeparator(a: string, b: string, c: char)
    requires c !in a
    ensures Split(a + [c] + b, c) == [a] + Split(b, c)
    decreases |a|
  {
    if |a| == 0 {
      assert (a + [c] + b)[1..] == b;
    } else {
      assert (a + [c] + b)[1..] == a[1..] + [c] + b;
      SplitAtFirstSeparator(a[1..], b, c);
      assert [a[0]] + a[1..] == a;
    }
  }

  /** Splitting a join on its one-character separator gives the parts back. */
  lemma {:induction false} SplitJoin(parts: seq<string>, c: char)
    requires |parts| >= 1
    requires forall p :: p in parts ==> c !in p
    ensures Split(Join([c], parts), c) == parts
    decreases |parts|
  {
    if |parts| == 1 {
      SplitWithoutSeparator(parts[0], c);
    } else {
      SplitJoin(parts[1..], c);
      SplitAtFirstSeparator(parts[0], Join([c], parts[1..]), c);
      assert [parts[0]] + parts[1..] == parts;
    }
  }

  /** Joining n parts that never contain the separator character puts exactly n - 1 of it in. */
  lemma {:induction false} JoinOccurrences(parts: seq<string>, c: char)
    requires forall p :: p in parts ==> c !in p
    ensures Occurrences(Join([c], parts), c) == if |parts| == 0 then 0 else |parts| - 1
    decreases |parts|
  {
    if |parts| == 1 {
      OccurrencesAbsent(parts[0], c);
    } else if |parts| > 1 {
      JoinOccurrences(parts[1..], c);
      OccurrencesAbsent(parts[0], c);
      OccurrencesAppend(parts[0] + [c], Join([c], parts[1..]), c);
      OccurrencesAppend(parts[0], [c], c);
    }
  }
}
