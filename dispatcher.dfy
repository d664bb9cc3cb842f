/**
 * The aggregation in `main`: the fetches complete in some order, and each
 * completion either extends the collected rows or records its partition key
 * as failed.  Which order the thread pool delivers is not determined, so the
 * model takes it as an input and proves the outcome does not depend on it
 * beyond the order of the rows.
 */
module Dispatcher {
  import opened Fetcher

  /** One finished future: the partition key it was submitted for and how its fetch ended. */
  datatype Completion = Completion(key: string, ending: Ending)

  /** The rows a completion contributes: its entities when the fetch returned, none when it raised. */
  function RowsPart(c: Completion): seq<Entity> {
    if c.ending.Fetched? then c.ending.entities else []
  }

  /** The failed keys a completion contributes: its own key when the fetch raised. */
  function KeyPart(c: Completion): seq<string> {
    if c.ending.Fetched? then [] else [c.key]
  }

  /** The concatenation of what each completion contributes, in completion order. */
  function Gathered<T>(cs: seq<Completion>, part: Completion -> seq<T>): seq<T> {
    if cs == [] then [] else Gathered(cs[..|cs| - 1], part) + part(cs[|cs| - 1])
  }

  function AllRows(cs: seq<Completion>): seq<Entity> {
    Gathered(cs, RowsPart)
  }

  function Failures(cs: seq<Completion>): seq<string> {
    Gathered(cs, KeyPart)
  }

  lemma {:induction false} GatheredAppend<T>(a: seq<Completion>, b: seq<Completion>, part: Completion -> seq<T>)
    ensures Gathered(a + b, part) == Gathered(a, part) + Gathered(b, part)
    decreases |b|
  {
    if b == [] {
      assert a + b == a;
    } else {
      var n := |b| - 1;
      assert (a + b)[..|a + b| - 1] == a + b[..n];
      assert (a + b)[|a + b| - 1] == b[n];
      GatheredAppend(a, b[..n], part);
    }
  }

  /**
   * Reordering the completions reorders what is gathered and changes nothing
   * else: the same contributions, each as often.
   */
  lemma {:induction false} GatheredPermutation<T>(cs: seq<Completion>, cs': seq<Completion>, part: Completion -> seq<T>)
    requires multiset(cs) == multiset(cs')
    ensures multiset(Gathered(cs, part)) == multiset(Gathered(cs', part))
    decreases |cs|
  {
    if cs == [] {
      assert cs' == [] by {
        assert |multiset(cs')| == 0;
      }
    } else {
      var c := cs[0];
      assert c in multiset(cs');
      var j :| 0 <= j < |cs'| && cs'[j] == c;
      var left, right := cs'[..j], cs'[j + 1..];
      assert cs' == left + [c] + right;
      assert cs == [c] + cs[1..];
      assert multiset(cs) == multiset{c} + multiset(cs[1..]);
      assert multiset(cs') == multiset(left + [c]) + multiset(right);
      assert multiset(left + [c]) == multiset(left) + multiset{c};
      assert multiset(left + right) == multiset(left) + multiset(right);
      CancelOne(c, multiset(cs[1..]), multiset(left + right));
      GatheredPermutation(cs[1..], left + right, part);
      SplitGathered(c, cs[1..], left, right, part);
    }
  }

  lemma CancelOne(c: Completion, a: multiset<Completion>, b: multiset<Completion>)
    requires multiset{c} + a == multiset{c} + b
    ensures a == b
  {
    assert a == (multiset{c} + a) - multiset{c};
    assert b == (multiset{c} + b) - multiset{c};
  }

  /** How a completion taken out of the front, and out of the middle, splits what is gathered. */
  lemma SplitGathered<T>(c: Completion, tail: seq<Completion>, left: seq<Completion>, right: seq<Completion>, part: Completion -> seq<T>)
    ensures Gathered([c] + tail, part) == part(c) + Gathered(tail, part)
    ensures Gathered(left + [c] + right, part) == Gathered(left, part) + part(c) + Gathered(right, part)
    ensures Gathered(left + right, part) == Gathered(left, part) + Gathered(right, part)
  {
    assert Gathered([c], part) == part(c) by {
      assert [c][..0] == [];
    }
    GatheredAppend([c], tail, part);
    GatheredAppend(left, right, part);
    GatheredAppend(left + [c], right, part);
    GatheredAppend(left, [c], part);
  }

  /** The rows collected are the same multiset whatever order the fetches complete in. */
  lemma RowsIndependentOfOrder(cs: seq<Completion>, cs': seq<Completion>)
    requires multiset(cs) == multiset(cs')
    ensures multiset(AllRows(cs)) == multiset(AllRows(cs'))
  {
    GatheredPermutation(cs, cs', RowsPart);
  }

  /** So are the failed keys. */
  lemma FailuresIndependentOfOrder(cs: seq<Completion>, cs': seq<Completion>)
    requires multiset(cs) == multiset(cs')
    ensures multiset(Failures(cs)) == multiset(Failures(cs'))
  {
    GatheredPermutation(cs, cs', KeyPart);
  }

  /** A key is reported failed exactly when one of its fetches ended other than with rows. */
  lemma {:induction false} FailedKeysAreFailedFetches(cs: seq<Completion>, k: string)
    ensures k in Failures(cs) <==> exists i :: 0 <= i < |cs| && cs[i].key == k && !cs[i].ending.Fetched?
  {
    if cs != [] {
      var n := |cs| - 1;
      FailedKeysAreFailedFetches(cs[..n], k);
      if exists i :: 0 <= i < |cs| && cs[i].key == k && !cs[i].ending.Fetched? {
        var i :| 0 <= i < |cs| && cs[i].key == k && !cs[i].ending.Fetched?;
        if i < n { assert cs[..n][i] == cs[i]; }
      }
    }
  }

  /** Each entity collected came from a fetch that returned, and every returned entity is collected. */
  lemma {:induction false} RowsComeFromFetchedPartitions(cs: seq<Completion>, e: Entity)
    ensures e in AllRows(cs) <==> exists i :: 0 <= i < |cs| && cs[i].ending.Fetched? && e in cs[i].ending.entities
  {
    if cs != [] {
      var n := |cs| - 1;
      RowsComeFromFetchedPartitions(cs[..n], e);
      if exists i :: 0 <= i < |cs| && cs[i].ending.Fetched? && e in cs[i].ending.entities {
        var i :| 0 <= i < |cs| && cs[i].ending.Fetched? && e in cs[i].ending.entities;
        if i < n { assert cs[..n][i] == cs[i]; }
      }
    }
  }

  /** The number of completions whose fetch returned rows. */
  function Succeeded(cs: seq<Completion>): nat {
    if cs == [] then 0 else Succeeded(cs[..|cs| - 1]) + (if cs[|cs| - 1].ending.Fetched? then 1 else 0)
  }

  /** Every completion is counted once: as a success or as a failure. */
  lemma {:induction false} EveryKeyAccounted(cs: seq<Completion>)
    ensures Succeeded(cs) + |Failures(cs)| == |cs|
  {
    if cs != [] {
      EveryKeyAccounted(cs[..|cs| - 1]);
    }
  }

  /**
   * The `as_completed` loop of lines 275-283: the rows of each returned fetch
   * are appended to `all_rows`, the key of each fetch that raised to
   * `failures`, in completion order.
   */
  method CollectResults(cs: seq<Completion>) returns (allRows: seq<Entity>, failures: seq<string>)
    ensures allRows == AllRows(cs)
    ensures failures == Failures(cs)
  {
    allRows := [];
    failures := [];
    for i := 0 to |cs|
      invariant allRows == AllRows(cs[..i])
      invariant failures == Failures(cs[..i])
    {
      assert cs[..i + 1][..i] == cs[..i];
      match cs[i].ending {
        case Fetched(rows) =>
          allRows := allRows + rows;
        case _ =>
          failures := failures + [cs[i].key];
      }
    }
    assert cs[..|cs|] == cs;
  }
}
