/** Subsequences, shared by the queue policy and the rate limiter. */
module Subsequences {
  import opened Common

  ghost predicate IsSubsequence<T>(s: seq<T>, t: seq<T>) {
    if s == [] then true
    else if t == [] then false
    else IsSubsequence(s, DropLast(t)) || (Last(s) == Last(t) && IsSubsequence(DropLast(s), DropLast(t)))
  }

  lemma SubsequenceSnoc<T>(s: seq<T>, t: seq<T>, x: T)
    requires IsSubsequence(s, t)
    ensures IsSubsequence(s, t + [x]) && IsSubsequence(s + [x], t + [x])
  {
    LastOfAppend(s, [x]);
    LastOfAppend(t, [x]);
    assert s + DropLast([x]) == s && t + DropLast([x]) == t;
  }

  lemma {:induction false} SubsequenceInit<T>(s: seq<T>, t: seq<T>)
    requires s != [] && IsSubsequence(s, t)
    ensures IsSubsequence(DropLast(s), t)
  {
    if IsSubsequence(s, DropLast(t)) {
      SubsequenceInit(s, DropLast(t));
    } else {
      SubsequenceSnoc(DropLast(s), DropLast(t), Last(t));
      Rejoin(t);
    }
  }

  lemma {:induction false} PrefixSubsequence<T>(s: seq<T>, rest: seq<T>)
    ensures IsSubsequence(s, s + rest)
  {
    if rest == [] {
      assert s + rest == s;
      Whole(s);
    } else {
      PrefixSubsequence(s, DropLast(rest));
      SubsequenceSnoc(s, s + DropLast(rest), Last(rest));
      Rejoin(rest);
      Assoc(s, DropLast(rest), [Last(rest)]);
    }
  }

  lemma {:induction false} Whole<T>(s: seq<T>)
    ensures IsSubsequence(s, s)
  {
    if s != [] {
      Whole(DropLast(s));
    }
  }

  lemma {:induction false} Transitive<T>(a: seq<T>, b: seq<T>, c: seq<T>)
    requires IsSubsequence(a, b) && IsSubsequence(b, c)
    ensures IsSubsequence(a, c)
    decreases |c|
  {
    if a != [] {
      if IsSubsequence(b, DropLast(c)) {
        Transitive(a, b, DropLast(c));
      } else if IsSubsequence(a, DropLast(b)) {
        Transitive(a, DropLast(b), DropLast(c));
      } else {
        Transitive(DropLast(a), DropLast(b), DropLast(c));
      }
    }
  }
}
