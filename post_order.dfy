/**
 * The ordering of posts: `posts.sort((a, b) => key(b) - key(a))` with a stable
 * sort, i.e. newest first and, among posts with the same date key, in the order
 * they were read. The library sort is specified by what a stable sort must
 * produce; insertion sort below is one definition that meets it, and
 * StableSortUnique shows that any result meeting it is this one.
 */
module PostOrder {
  import opened BlogModel

  /** Dates never increase along the sequence. */
  ghost predicate NewestFirst(ps: seq<Post>, dateKey: string -> int) {
    forall i, j :: 0 <= i < j < |ps| ==> dateKey(ps[i].date) >= dateKey(ps[j].date)
  }

  /** The posts whose date key is `k`, in their order in `ps`. */
  function WithKey(ps: seq<Post>, dateKey: string -> int, k: int): seq<Post> {
    if ps == [] then []
    else (if dateKey(ps[0].date) == k then [ps[0]] else []) + WithKey(ps[1..], dateKey, k)
  }

  /** Inserts `p` in front of the first post that is not newer than it. */
  function Insert(p: Post, ps: seq<Post>, dateKey: string -> int): seq<Post> {
    if ps == [] || dateKey(ps[0].date) <= dateKey(p.date) then [p] + ps
    else [ps[0]] + Insert(p, ps[1..], dateKey)
  }

  /** A post no older than everything in a newest-first sequence can go in front of it. */
  lemma ConsNewestFirst(x: Post, r: seq<Post>, dateKey: string -> int)
    requires NewestFirst(r, dateKey)
    requires forall y :: y in r ==> dateKey(y.date) <= dateKey(x.date)
    ensures NewestFirst([x] + r, dateKey)
  {
    var s := [x] + r;
    forall i, j | 0 <= i < j < |s|
      ensures dateKey(s[i].date) >= dateKey(s[j].date)
    {
      assert s[j] == r[j - 1];
      if i > 0 {
        assert s[i] == r[i - 1];
      } else {
        assert r[j - 1] in r;
      }
    }
  }

  /** Insertion adds exactly `p`. */
  lemma {:induction false} InsertMultiset(p: Post, ps: seq<Post>, dateKey: string -> int)
    ensures multiset(Insert(p, ps, dateKey)) == multiset(ps) + multiset{p}
  {
    if ps != [] && dateKey(ps[0].date) > dateKey(p.date) {
      InsertMultiset(p, ps[1..], dateKey);
      assert ps == [ps[0]] + ps[1..];
    }
  }

  /** Inserting into a newest-first sequence keeps it newest first and adds exactly `p`. */
  lemma {:induction false} InsertSorted(p: Post, ps: seq<Post>, dateKey: string -> int)
    requires NewestFirst(ps, dateKey)
    ensures NewestFirst(Insert(p, ps, dateKey), dateKey)
    ensures multiset(Insert(p, ps, dateKey)) == multiset(ps) + multiset{p}
  {
    InsertMultiset(p, ps, dateKey);
    if ps == [] || dateKey(ps[0].date) <= dateKey(p.date) {
      if ps != [] {
        NewestFirstHead(ps, dateKey);
      }
      ConsNewestFirst(p, ps, dateKey);
    } else {
      var tail := ps[1..];
      var rest := Insert(p, tail, dateKey);
      NewestFirstTail(ps, dateKey);
      InsertSorted(p, tail, dateKey);
      InsertMultiset(p, tail, dateKey);
      NewestFirstHead(ps, dateKey);
      forall y | y in rest
        ensures dateKey(y.date) <= dateKey(ps[0].date)
      {
        assert y in multiset(rest);
        if y != p {
          assert y in multiset(tail);
          assert y in ps;
        }
      }
      ConsNewestFirst(ps[0], rest, dateKey);
    }
  }

  /** The posts of key `k` in a sequence with a given first post. */
  lemma WithKeyCons(x: Post, r: seq<Post>, dateKey: string -> int, k: int)
    ensures WithKey([x] + r, dateKey, k) == (if dateKey(x.date) == k then [x] else []) + WithKey(r, dateKey, k)
  {
    assert ([x] + r)[0] == x;
    assert ([x] + r)[1..] == r;
  }

  /** `p` comes before the posts of its own date key, and no other key's order changes. */
  lemma {:induction false} InsertWithKey(p: Post, ps: seq<Post>, dateKey: string -> int, k: int)
    ensures WithKey(Insert(p, ps, dateKey), dateKey, k)
         == (if dateKey(p.date) == k then [p] else []) + WithKey(ps, dateKey, k)
  {
    if ps == [] || dateKey(ps[0].date) <= dateKey(p.date) {
      WithKeyCons(p, ps, dateKey, k);
    } else {
      var rest := Insert(p, ps[1..], dateKey);
      InsertWithKey(p, ps[1..], dateKey, k);
      WithKeyCons(ps[0], rest, dateKey, k);
      WithKeyCons(ps[0], ps[1..], dateKey, k);
      assert ps == [ps[0]] + ps[1..];
    }
  }

  /** The posts newest first, ties in input order. */
  function SortNewestFirst(ps: seq<Post>, dateKey: string -> int): (r: seq<Post>)
    ensures NewestFirst(r, dateKey)
    ensures multiset(r) == multiset(ps)
    ensures forall k :: WithKey(r, dateKey, k) == WithKey(ps, dateKey, k)
  {
    if ps == [] then []
    else
      var rest := SortNewestFirst(ps[1..], dateKey);
      InsertSorted(ps[0], rest, dateKey);
      assert ps == [ps[0]] + ps[1..];
      assert forall k :: WithKey(Insert(ps[0], rest, dateKey), dateKey, k) == WithKey(ps, dateKey, k) by {
        forall k ensures WithKey(Insert(ps[0], rest, dateKey), dateKey, k) == WithKey(ps, dateKey, k) {
          InsertWithKey(ps[0], rest, dateKey, k);
        }
      }
      Insert(ps[0], rest, dateKey)
  }

  lemma {:induction false} WithKeyMembers(ps: seq<Post>, dateKey: string -> int, k: int)
    ensures forall x :: x in WithKey(ps, dateKey, k) ==> x in ps && dateKey(x.date) == k
  {
    if ps != [] { WithKeyMembers(ps[1..], dateKey, k); }
  }

  /** The rest of a newest-first sequence is newest first. */
  lemma NewestFirstTail(ps: seq<Post>, dateKey: string -> int)
    requires ps != [] && NewestFirst(ps, dateKey)
    ensures NewestFirst(ps[1..], dateKey)
  {
    var tail := ps[1..];
    forall i, j | 0 <= i < j < |tail|
      ensures dateKey(tail[i].date) >= dateKey(tail[j].date)
    {
      assert tail[i] == ps[i + 1] && tail[j] == ps[j + 1];
    }
  }

  /** The first post of a newest-first sequence is as new as any of them. */
  lemma NewestFirstHead(ps: seq<Post>, dateKey: string -> int)
    requires ps != [] && NewestFirst(ps, dateKey)
    ensures forall y :: y in ps ==> dateKey(y.date) <= dateKey(ps[0].date)
  {
    forall y | y in ps
      ensures dateKey(y.date) <= dateKey(ps[0].date)
    {
      var j :| 0 <= j < |ps| && ps[j] == y;
      assert j == 0 || dateKey(ps[0].date) >= dateKey(ps[j].date);
    }
  }

  /**
   * A stable newest-first sort has exactly one possible result: two sequences
   * that are both newest first and agree on the order of the posts of every
   * date key are equal.
   */
  lemma {:induction false} StableSortUnique(a: seq<Post>, b: seq<Post>, dateKey: string -> int)
    requires NewestFirst(a, dateKey) && NewestFirst(b, dateKey)
    requires forall k :: WithKey(a, dateKey, k) == WithKey(b, dateKey, k)
    ensures a == b
  {
    if a != [] {
      WithKeyCons(a[0], a[1..], dateKey, dateKey(a[0].date));
      assert a == [a[0]] + a[1..];
      assert WithKey(b, dateKey, dateKey(a[0].date)) != [];
    }
    if b != [] {
      WithKeyCons(b[0], b[1..], dateKey, dateKey(b[0].date));
      assert b == [b[0]] + b[1..];
      assert WithKey(a, dateKey, dateKey(b[0].date)) != [];
    }
    if a != [] && b != [] {
      var ka, kb := dateKey(a[0].date), dateKey(b[0].date);
      assert ka == kb by {
        NewestFirstHead(a, dateKey);
        NewestFirstHead(b, dateKey);
        WithKeyMembers(a, dateKey, kb);
        WithKeyMembers(b, dateKey, ka);
        assert WithKey(a, dateKey, kb)[0] in a;
        assert WithKey(b, dateKey, ka)[0] in b;
      }
      assert a[0] == b[0] by {
        assert WithKey(a, dateKey, ka)[0] == a[0];
        assert WithKey(b, dateKey, ka)[0] == b[0];
      }
      forall k
        ensures WithKey(a[1..], dateKey, k) == WithKey(b[1..], dateKey, k)
      {
        WithKeyCons(a[0], a[1..], dateKey, k);
        WithKeyCons(b[0], b[1..], dateKey, k);
        var wa, wb := WithKey(a[1..], dateKey, k), WithKey(b[1..], dateKey, k);
        if k == ka {
          assert WithKey(a, dateKey, k) == [a[0]] + wa;
          assert WithKey(b, dateKey, k) == [a[0]] + wb;
          assert ([a[0]] + wa)[1..] == wa;
          assert ([a[0]] + wb)[1..] == wb;
        } else {
          assert WithKey(a, dateKey, k) == [] + wa;
          assert WithKey(b, dateKey, k) == [] + wb;
          assert [] + wa == wa && [] + wb == wb;
        }
      }
      NewestFirstTail(a, dateKey);
      NewestFirstTail(b, dateKey);
      StableSortUnique(a[1..], b[1..], dateKey);
    }
  }

  /** Sorting keeps every post and adds none. */
  lemma SortedMembers(ps: seq<Post>, dateKey: string -> int)
    ensures forall x :: x in SortNewestFirst(ps, dateKey) <==> x in ps
  {
    var r := SortNewestFirst(ps, dateKey);
    assert forall x :: x in r <==> x in multiset(r);
    assert forall x :: x in ps <==> x in multiset(ps);
  }
}
