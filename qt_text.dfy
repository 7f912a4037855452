/**
 * The handful of Qt string and list primitives the directory code relies on
 * (QString::indexOf, mid, contains, replace, split, count, QStringList::join),
 * with the exact Qt 5 behaviour at their edges: indexOf answers -1, mid clamps
 * its arguments, split keeps empty parts and replace with an empty pattern
 * inserts the replacement around every element.
 */
module QtText {

  /** QString::indexOf(QChar) and QList::indexOf(value): first position of x, or -1. */
  function IndexOf<T(==)>(s: seq<T>, x: T): (r: int)
    ensures -1 <= r < |s|
    ensures r == -1 <==> x !in s
    ensures 0 <= r ==> s[r] == x && forall j :: 0 <= j < r ==> s[j] != x
  {
    if |s| == 0 then -1
    else if s[0] == x then 0
    else
      var i := IndexOf(s[1..], x);
      if i == -1 then -1 else i + 1
  }

  /** Recognising a first occurrence by its position. */
  lemma IndexOfIs<T>(s: seq<T>, x: T, k: nat)
    requires k < |s| && s[k] == x && forall j :: 0 <= j < k ==> s[j] != x
    ensures IndexOf(s, x) == k
  {
  }

  /**
   * QString::mid(position, n) of Qt 5: an out-of-range start gives the empty
   * string, a negative or oversized length means "up to the end", and a
   * negative start is clamped to 0 after shortening the length accordingly.
   */
  function Mid<T>(s: seq<T>, pos: int, n: int): (r: seq<T>)
    ensures |r| <= |s|
    ensures 0 <= pos <= |s| ==> |r| <= |s| - pos && r == s[pos..pos + |r|]
    ensures 0 <= pos <= |s| && (n < 0 || |s| - pos <= n) ==> |r| == |s| - pos
    ensures 0 <= pos <= |s| && 0 <= n <= |s| - pos ==> |r| == n
    ensures pos > |s| ==> r == []
  {
    if pos > |s| then []
    else if pos < 0 then
      if n < 0 || n + pos >= |s| then s
      else if n + pos <= 0 then []
      else s[..n + pos]
    else if n < 0 || n > |s| - pos then s[pos..]
    else s[pos..pos + n]
  }

  predicate StartsWith<T(==)>(s: seq<T>, prefix: seq<T>)
  {
    |prefix| <= |s| && s[..|prefix|] == prefix
  }

  predicate EndsWith<T(==)>(s: seq<T>, suffix: seq<T>)
  {
    |suffix| <= |s| && s[|s| - |suffix|..] == suffix
  }

  /** QString::contains(QString): sub occurs somewhere in s (the empty string occurs everywhere). */
  predicate Contains<T(==)>(s: seq<T>, sub: seq<T>)
    decreases |s|
  {
    StartsWith(s, sub) || (|s| > 0 && Contains(s[1..], sub))
  }

  /** sub occurs in s at position i. */
  predicate OccursAt<T(==)>(s: seq<T>, sub: seq<T>, i: int)
  {
    0 <= i <= |s| - |sub| && s[i..i + |sub|] == sub
  }

  /** Contains, stated by position. */
  lemma {:induction false} ContainsAt<T>(s: seq<T>, sub: seq<T>)
    ensures Contains(s, sub) <==> exists i :: OccursAt(s, sub, i)
    decreases |s|
  {
    if StartsWith(s, sub) {
      assert OccursAt(s, sub, 0);
    } else if |s| == 0 {
    } else {
      ContainsAt(s[1..], sub);
      if exists i :: OccursAt(s, sub, i) {
        var i :| OccursAt(s, sub, i);
        assert i != 0;
        assert s[1..][i - 1..i - 1 + |sub|] == s[i..i + |sub|];
        assert OccursAt(s[1..], sub, i - 1);
      }
      if Contains(s[1..], sub) {
        var j :| OccursAt(s[1..], sub, j);
        assert s[1..][j..j + |sub|] == s[j + 1..j + 1 + |sub|];
        assert OccursAt(s, sub, j + 1);
      }
    }
  }

  /** Every string contains itself, and a string ending in sub contains it. */
  lemma ContainsSuffix<T>(prefix: seq<T>, sub: seq<T>)
    ensures Contains(prefix + sub, sub)
  {
    var s := prefix + sub;
    assert OccursAt(s, sub, |prefix|);
    ContainsAt(s, sub);
  }

  /** A string shorter than sub cannot contain it. */
  lemma ContainsLength<T>(s: seq<T>, sub: seq<T>)
    requires Contains(s, sub)
    ensures |sub| <= |s|
  {
    ContainsAt(s, sub);
  }

  /**
   * QString::replace(before, after): every non-overlapping occurrence of before,
   * scanning from the left, is replaced by after. With an empty before, Qt
   * inserts after at every position, including both ends.
   */
  function ReplaceAll<T(==)>(s: seq<T>, before: seq<T>, after: seq<T>): (r: seq<T>)
    decreases |s|
  {
    if before == [] then Interleave(s, after)
    else if |s| == 0 then []
    else if StartsWith(s, before) then after + ReplaceAll(s[|before|..], before, after)
    else [s[0]] + ReplaceAll(s[1..], before, after)
  }

  /** after, s[0], after, s[1], ..., after */
  function Interleave<T>(s: seq<T>, after: seq<T>): (r: seq<T>)
    ensures |r| == |s| + (|s| + 1) * |after|
  {
    if |s| == 0 then after else after + [s[0]] + Interleave(s[1..], after)
  }

  /** Replacing a pattern that does not occur changes nothing. */
  lemma {:induction false} ReplaceAbsent<T>(s: seq<T>, before: seq<T>, after: seq<T>)
    requires before != [] && !Contains(s, before)
    ensures ReplaceAll(s, before, after) == s
    decreases |s|
  {
    if |s| > 0 {
      ReplaceAbsent(s[1..], before, after);
    }
  }

  /** Replacing the whole string by itself's pattern yields the replacement. */
  lemma ReplaceWhole<T>(before: seq<T>, after: seq<T>)
    requires before != []
    ensures ReplaceAll(before, before, after) == after
  {
    assert StartsWith(before, before);
    assert before[|before|..] == [];
    assert ReplaceAll(before[|before|..], before, after) == [];
  }

  /** QString::count(QChar). */
  function Count<T(==)>(s: seq<T>, x: T): (n: nat)
    ensures n <= |s|
    ensures n == 0 <==> x !in s
  {
    if |s| == 0 then 0 else (if s[0] == x then 1 else 0) + Count(s[1..], x)
  }

  lemma {:induction false} CountConcat<T>(a: seq<T>, b: seq<T>, x: T)
    ensures Count(a + b, x) == Count(a, x) + Count(b, x)
    decreases |a|
  {
    if |a| == 0 {
      assert a + b == b;
    } else {
      assert (a + b)[1..] == a[1..] + b;
      CountConcat(a[1..], b, x);
    }
  }

  /** QString::split(QChar) with empty parts kept. */
  function Split<T(==)>(s: seq<T>, sep: T): (parts: seq<seq<T>>)
    ensures |parts| >= 1
    ensures forall i :: 0 <= i < |parts| ==> sep !in parts[i]
    decreases |s|
  {
    var i := IndexOf(s, sep);
    if i < 0 then [s] else [s[..i]] + Split(s[i + 1..], sep)
  }

  /** QStringList::join(QChar). */
  function Join<T>(parts: seq<seq<T>>, sep: T): (s: seq<T>)
  {
    if |parts| == 0 then []
    else if |parts| == 1 then parts[0]
    else parts[0] + [sep] + Join(parts[1..], sep)
  }

  lemma JoinCons<T>(p: seq<T>, rest: seq<seq<T>>, sep: T)
    requires |rest| >= 1
    ensures Join([p] + rest, sep) == p + [sep] + Join(rest, sep)
  {
    assert ([p] + rest)[1..] == rest;
  }

  lemma SplitUnfold<T>(s: seq<T>, sep: T)
    requires sep in s
    ensures Split(s, sep) == [s[..IndexOf(s, sep)]] + Split(s[IndexOf(s, sep) + 1..], sep)
  {
  }

  lemma Reassemble<T>(s: seq<T>, i: nat)
    requires i < |s|
    ensures s[..i] + [s[i]] + s[i + 1..] == s
  {
  }

  /** Joining the parts of a split gives back the string. */
  lemma {:induction false} JoinSplit<T>(s: seq<T>, sep: T)
    ensures Join(Split(s, sep), sep) == s
    decreases |s|
  {
    var i := IndexOf(s, sep);
    if 0 <= i {
      SplitUnfold(s, sep);
      JoinSplit(s[i + 1..], sep);
      JoinCons(s[..i], Split(s[i + 1..], sep), sep);
      Reassemble(s, i);
    }
  }

  /** Splitting a join of separator-free parts gives back the parts. */
  lemma {:induction false} SplitJoin<T>(parts: seq<seq<T>>, sep: T)
    requires |parts| >= 1
    requires forall i :: 0 <= i < |parts| ==> sep !in parts[i]
    ensures Split(Join(parts, sep), sep) == parts
    decreases |parts|
  {
    if |parts| > 1 {
      var p, rest := parts[0], parts[1..];
      assert parts == [p] + rest;
      JoinCons(p, rest, sep);
      var tail := Join(rest, sep);
      var s := p + [sep] + tail;
      assert s == p + ([sep] + tail);
      IndexOfConcat(p, [sep] + tail, sep);
      assert s[..|p|] == p;
      assert s[|p| + 1..] == tail;
      SplitJoin(rest, sep);
    }
  }

  /** The first occurrence in a + b lies in b (shifted) when a does not hold x. */
  lemma {:induction false} IndexOfConcat<T>(a: seq<T>, b: seq<T>, x: T)
    requires x !in a
    ensures IndexOf(a + b, x) == if x in b then |a| + IndexOf(b, x) else -1
    decreases |a|
  {
    if |a| == 0 {
      assert a + b == b;
    } else {
      assert (a + b)[1..] == a[1..] + b;
      IndexOfConcat(a[1..], b, x);
    }
  }

  /** A string with n separators splits into n + 1 parts. */
  lemma {:induction false} SplitCount<T>(s: seq<T>, sep: T)
    ensures |Split(s, sep)| == Count(s, sep) + 1
    decreases |s|
  {
    var i := IndexOf(s, sep);
    if 0 <= i {
      assert s == s[..i] + [sep] + s[i + 1..];
      CountConcat(s[..i] + [sep], s[i + 1..], sep);
      CountConcat(s[..i], [sep], sep);
      SplitCount(s[i + 1..], sep);
    }
  }
}
