/**
 * JavaScript objects used as string-keyed records: assigning a list of
 * key/value pairs one after the other, so the last assignment to a key wins.
 */
module Records {
  import opened Wrappers

  /** No later pair assigns the key of pair `i`. */
  predicate LastFor<V>(pairs: seq<(string, V)>, i: int)
    requires 0 <= i < |pairs|
  {
    forall j :: i < j < |pairs| ==> pairs[j].0 != pairs[i].0
  }

  /** Some pair assigns key `k`. */
  predicate Assigns<V>(pairs: seq<(string, V)>, k: string) {
    exists i :: 0 <= i < |pairs| && pairs[i].0 == k
  }

  /**
   * `obj[k] = v` for each pair in order, starting from `m`: the keys are those of
   * `m` and of the pairs, a key's value comes from its last pair, and a key no
   * pair assigns keeps its value.
   */
  function AssignAll<V>(m: map<string, V>, pairs: seq<(string, V)>): (r: map<string, V>)
    ensures forall k :: k in r <==> k in m || Assigns(pairs, k)
    ensures forall i :: 0 <= i < |pairs| && LastFor(pairs, i) ==> pairs[i].0 in r && r[pairs[i].0] == pairs[i].1
    ensures forall k :: k in m && !Assigns(pairs, k) ==> r[k] == m[k]
    decreases |pairs|
  {
    if |pairs| == 0 then m
    else
      var n := |pairs| - 1;
      var prev := AssignAll(m, pairs[..n]);
      AssignKeys(m, pairs, prev);
      AssignLastWins(pairs, prev);
      AssignUntouched(m, pairs, prev);
      prev[pairs[n].0 := pairs[n].1]
  }

  /** A key is assigned by the pairs iff by the earlier ones or by the last. */
  lemma AssignKeys<V>(m: map<string, V>, pairs: seq<(string, V)>, prev: map<string, V>)
    requires |pairs| > 0
    requires forall k :: k in prev <==> k in m || Assigns(pairs[..|pairs| - 1], k)
    ensures var n := |pairs| - 1;
      forall k :: k in prev[pairs[n].0 := pairs[n].1] <==> k in m || Assigns(pairs, k)
  {
    var n := |pairs| - 1;
    var init := pairs[..n];
    forall k
      ensures Assigns(pairs, k) <==> Assigns(init, k) || k == pairs[n].0
    {
      if Assigns(init, k) {
        var i :| 0 <= i < |init| && init[i].0 == k;
        assert pairs[i].0 == k;
      }
      if Assigns(pairs, k) && k != pairs[n].0 {
        var i :| 0 <= i < |pairs| && pairs[i].0 == k;
        assert init[i].0 == k;
      }
    }
  }

  /** The last pair for a key sets that key's value. */
  lemma AssignLastWins<V>(pairs: seq<(string, V)>, prev: map<string, V>)
    requires |pairs| > 0
    requires var init := pairs[..|pairs| - 1];
      forall i :: 0 <= i < |init| && LastFor(init, i) ==> init[i].0 in prev && prev[init[i].0] == init[i].1
    ensures var n := |pairs| - 1; var r := prev[pairs[n].0 := pairs[n].1];
      forall i :: 0 <= i < |pairs| && LastFor(pairs, i) ==> pairs[i].0 in r && r[pairs[i].0] == pairs[i].1
  {
    var n := |pairs| - 1;
    var init := pairs[..n];
    forall i | 0 <= i < n && LastFor(pairs, i)
      ensures LastFor(init, i) && init[i] == pairs[i] && pairs[i].0 != pairs[n].0
    {
      forall j | i < j < |init|
        ensures init[j].0 != init[i].0
      {
        assert pairs[j].0 != pairs[i].0;
      }
    }
  }

  /** A key the pairs never assign keeps its value from `m`. */
  lemma AssignUntouched<V>(m: map<string, V>, pairs: seq<(string, V)>, prev: map<string, V>)
    requires |pairs| > 0
    requires forall k :: k in prev <==> k in m || Assigns(pairs[..|pairs| - 1], k)
    requires forall k :: k in m && !Assigns(pairs[..|pairs| - 1], k) ==> prev[k] == m[k]
    ensures var n := |pairs| - 1; var r := prev[pairs[n].0 := pairs[n].1];
      forall k :: k in m && !Assigns(pairs, k) ==> r[k] == m[k]
  {
    var n := |pairs| - 1;
    assert forall i :: 0 <= i < n ==> pairs[..n][i] == pairs[i];
  }

  /** Entry `i` of `os` assigns key `k`. */
  predicate KeyedAt<V>(os: seq<Option<(string, V)>>, i: int, k: string)
    requires 0 <= i < |os|
  {
    os[i].Some? && os[i].value.0 == k
  }

  /** No entry after entry `i` assigns the key entry `i` assigns. */
  predicate LastSomeFor<V>(os: seq<Option<(string, V)>>, i: int)
    requires 0 <= i < |os| && os[i].Some?
  {
    forall j :: i < j < |os| ==> !KeyedAt(os, j, os[i].value.0)
  }

  /** The pairs among `os`, in order: a loop that assigns only some of its items. */
  function Defined<V>(os: seq<Option<(string, V)>>): (r: seq<(string, V)>)
    ensures forall k :: Assigns(r, k) <==> exists i :: 0 <= i < |os| && KeyedAt(os, i, k)
    ensures forall i :: 0 <= i < |os| && os[i].Some? && LastSomeFor(os, i) ==>
      exists j :: 0 <= j < |r| && r[j] == os[i].value && LastFor(r, j)
    decreases |os|
  {
    if |os| == 0 then []
    else
      var n := |os| - 1;
      var prev := Defined(os[..n]);
      var r := if os[n].Some? then prev + [os[n].value] else prev;
      DefinedKeys(os, prev, r);
      DefinedLast(os, prev, r);
      r
  }

  lemma DefinedKeys<V>(os: seq<Option<(string, V)>>, prev: seq<(string, V)>, r: seq<(string, V)>)
    requires |os| > 0
    requires var init := os[..|os| - 1];
      forall k :: Assigns(prev, k) <==> exists i :: 0 <= i < |init| && KeyedAt(init, i, k)
    requires r == if os[|os| - 1].Some? then prev + [os[|os| - 1].value] else prev
    ensures forall k :: Assigns(r, k) <==> exists i :: 0 <= i < |os| && KeyedAt(os, i, k)
  {
    var n := |os| - 1;
    var init := os[..n];
    forall k
      ensures Assigns(r, k) <==> exists i :: 0 <= i < |os| && KeyedAt(os, i, k)
    {
      if Assigns(r, k) {
        var j :| 0 <= j < |r| && r[j].0 == k;
        if j < |prev| {
          assert prev[j] == r[j];
          assert Assigns(prev, k);
          var i :| 0 <= i < n && KeyedAt(init, i, k);
          assert KeyedAt(os, i, k);
        } else {
          assert KeyedAt(os, n, k);
        }
      }
      if exists i :: 0 <= i < |os| && KeyedAt(os, i, k) {
        var i :| 0 <= i < |os| && KeyedAt(os, i, k);
        if i < n {
          assert init[i] == os[i];
          assert KeyedAt(init, i, k);
          assert Assigns(prev, k);
          var j :| 0 <= j < |prev| && prev[j].0 == k;
          assert r[j].0 == k;
        } else {
          assert r[|r| - 1].0 == k;
        }
      }
    }
  }

  lemma DefinedLast<V>(os: seq<Option<(string, V)>>, prev: seq<(string, V)>, r: seq<(string, V)>)
    requires |os| > 0
    requires var init := os[..|os| - 1];
      forall i :: 0 <= i < |init| && init[i].Some? && LastSomeFor(init, i) ==>
        exists j :: 0 <= j < |prev| && prev[j] == init[i].value && LastFor(prev, j)
    requires r == if os[|os| - 1].Some? then prev + [os[|os| - 1].value] else prev
    ensures forall i :: 0 <= i < |os| && os[i].Some? && LastSomeFor(os, i) ==>
      exists j :: 0 <= j < |r| && r[j] == os[i].value && LastFor(r, j)
  {
    var n := |os| - 1;
    var init := os[..n];
    forall i | 0 <= i < |os| && os[i].Some? && LastSomeFor(os, i)
      ensures exists j :: 0 <= j < |r| && r[j] == os[i].value && LastFor(r, j)
    {
      if i == n {
        assert r[|r| - 1] == os[i].value && LastFor(r, |r| - 1);
      } else {
        var k := os[i].value.0;
        assert !KeyedAt(os, n, k);
        assert init[i] == os[i];
        assert LastSomeFor(init, i) by {
          forall t | i < t < |init|
            ensures !KeyedAt(init, t, k)
          {
            assert !KeyedAt(os, t, k);
            assert init[t] == os[t];
          }
        }
        var j :| 0 <= j < |prev| && prev[j] == init[i].value && LastFor(prev, j);
        assert r[j] == prev[j];
        assert LastFor(r, j) by {
          forall t | j < t < |r|
            ensures r[t].0 != r[j].0
          {
            if t < |prev| {
              assert prev[t].0 != prev[j].0;
            }
          }
        }
      }
    }
  }

  /**
   * A loop that assigns only some of its items: `m` after assigning the pairs
   * among `os` in order, stated entry by entry of `os`.
   */
  function AssignSome<V>(m: map<string, V>, os: seq<Option<(string, V)>>): (r: map<string, V>)
    ensures forall k :: k in r <==> k in m || exists i :: 0 <= i < |os| && KeyedAt(os, i, k)
    ensures forall i :: 0 <= i < |os| && os[i].Some? && LastSomeFor(os, i) ==>
      os[i].value.0 in r && r[os[i].value.0] == os[i].value.1
    ensures forall k :: k in m && (forall i :: 0 <= i < |os| ==> !KeyedAt(os, i, k)) ==> r[k] == m[k]
  {
    var pairs := Defined(os);
    var r := AssignAll(m, pairs);
    assert forall i :: 0 <= i < |os| && os[i].Some? && LastSomeFor(os, i) ==>
      os[i].value.0 in r && r[os[i].value.0] == os[i].value.1 by {
      forall i | 0 <= i < |os| && os[i].Some? && LastSomeFor(os, i)
        ensures os[i].value.0 in r && r[os[i].value.0] == os[i].value.1
      {
        var j :| 0 <= j < |pairs| && pairs[j] == os[i].value && LastFor(pairs, j);
      }
    }
    r
  }
}
