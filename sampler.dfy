/** Selection of n users from a list without reusing an index, drawing from
    the shared random stream with a bounded number of retries per pick. */
module RandomSampler {
  import opened Wrappers
  import opened Seqs
  import opened Common

  /** The indices are pairwise distinct and below `len`. */
  ghost predicate DistinctIndices(idx: seq<nat>, len: nat) {
    NoDup(idx) && forall k :: 0 <= k < |idx| ==> idx[k] < len
  }

  /** The users at the given indices, in order. */
  function Select(users: seq<Login>, idx: seq<nat>): (r: seq<Login>)
    requires forall k :: 0 <= k < |idx| ==> idx[k] < |users|
    ensures |r| == |idx|
    ensures forall k :: 0 <= k < |idx| ==> r[k] == users[idx[k]]
  {
    seq(|idx|, k requires 0 <= k < |idx| => users[idx[k]])
  }

  /** One pick: draw from cursor `pos` until an index outside `taken` comes up,
      having already failed `j` times; give up once more than `limit` draws of
      this pick have failed. On success, the fresh index and the cursor after
      the draw that produced it. */
  ghost function Pick(taken: set<nat>, len: nat, limit: nat, draws: Draws, pos: nat, j: nat): (r: Option<(nat, nat)>)
    requires 0 < len
    ensures r.Some? ==> r.value.0 < len && r.value.0 !in taken && pos < r.value.1
    decreases limit + 1 - j
  {
    if j > limit then None
    else if Intn(draws, pos, len) !in taken then Some((Intn(draws, pos, len), pos + 1))
    else Pick(taken, len, limit, draws, pos + 1, j + 1)
  }

  /** A pick fails exactly when every draw it is still allowed to make, after
      `j` failed ones, hits an index already taken. */
  lemma {:induction false} PickFailsIff(taken: set<nat>, len: nat, limit: nat, draws: Draws, pos: nat, j: nat)
    requires 0 < len && j <= limit + 1
    ensures Pick(taken, len, limit, draws, pos, j).None? <==>
            forall q :: pos <= q <= pos + limit - j ==> Intn(draws, q, len) in taken
    decreases limit + 1 - j
  {
    if j <= limit && Intn(draws, pos, len) in taken {
      PickFailsIff(taken, len, limit, draws, pos + 1, j + 1);
    }
  }

  /** All picks: extend `chosen` to `n` distinct indices, each pick allowed
      `5 * n` failed draws before it gives up. On success, the indices and the
      cursor after the last draw. */
  ghost function PickAll(n: nat, len: nat, draws: Draws, pos: nat, chosen: seq<nat>): (r: Option<(seq<nat>, nat)>)
    requires 0 < len && |chosen| <= n && DistinctIndices(chosen, len)
    ensures r.Some? ==> |r.value.0| == n && r.value.0[..|chosen|] == chosen
    ensures r.Some? ==> DistinctIndices(r.value.0, len) && pos <= r.value.1
    decreases n - |chosen|
  {
    if |chosen| == n then Some((chosen, pos))
    else
      match Pick(Elems(chosen), len, 5 * n, draws, pos, 0)
      case None => None
      case Some(pk) =>
        var next := chosen + [pk.0];
        assert DistinctIndices(next, len) by {
          assert forall k :: 0 <= k < |chosen| ==> next[k] == chosen[k] && chosen[k] in Elems(chosen);
        }
        var r := PickAll(n, len, draws, pk.1, next);
        assert r.Some? ==> r.value.0[..|chosen|] == r.value.0[..|next|][..|chosen|];
        r
  }

  /** One step of PickAll, as the outer loop of the source takes it. */
  lemma PickAllStep(n: nat, len: nat, draws: Draws, pos: nat, chosen: seq<nat>)
    requires 0 < len && |chosen| < n && DistinctIndices(chosen, len)
    ensures Pick(Elems(chosen), len, 5 * n, draws, pos, 0).None? ==>
            PickAll(n, len, draws, pos, chosen).None?
    ensures Pick(Elems(chosen), len, 5 * n, draws, pos, 0).Some? ==>
            var pk := Pick(Elems(chosen), len, 5 * n, draws, pos, 0).value;
            DistinctIndices(chosen + [pk.0], len) &&
            PickAll(n, len, draws, pos, chosen) == PickAll(n, len, draws, pk.1, chosen + [pk.0])
  {
  }

  /** What selecting `n` of `users` yields, and the cursor afterwards: nothing
      for `n == 0` (and, as the loop never runs, for negative `n`), the whole
      list unchanged once `n` reaches its length, and otherwise the users at
      `n` distinct drawn indices, or a sampling failure when a pick gives up. */
  ghost function Sample(n: int, users: seq<Login>, draws: Draws, pos: nat): (Result<seq<Login>, Error>, nat)
  {
    if n <= 0 then (Ok([]), pos)
    else if n >= |users| then (Ok(users), pos)
    else
      match PickAll(n, |users|, draws, pos, [])
      case None => (Err(SamplingExhausted), pos)
      case Some(picked) => (Ok(Select(users, picked.0)), picked.1)
  }

  /** A sample fails only through an exhausted pick; a successful one holds
      only listed users, min(n, |users|) of them (none for n <= 0), and no
      user twice when the list has none twice. */
  lemma SampleProperties(n: int, users: seq<Login>, draws: Draws, pos: nat)
    ensures var r := Sample(n, users, draws, pos);
      && (r.0.Err? ==> r.0.error == SamplingExhausted && 0 < n < |users|)
      && (r.0.Ok? ==> forall u :: u in r.0.value ==> u in users)
      && (r.0.Ok? ==> |r.0.value| == if n <= 0 then 0 else Min(n, |users|))
      && (r.0.Ok? && NoDup(users) ==> NoDup(r.0.value))
      && pos <= r.1
  {
    if 0 < n < |users| && PickAll(n, |users|, draws, pos, []).Some? {
      var picked := PickAll(n, |users|, draws, pos, []).value;
      var sel := Select(users, picked.0);
      assert forall u :: u in sel ==> u in users;
      if NoDup(users) {
        forall a, b | 0 <= a < b < |sel| ensures sel[a] != sel[b] {
          assert picked.0[a] != picked.0[b];
        }
      }
    }
  }

  /** The retry loop of one pick in selectRandomUsers: draw indices below
      `len` until one outside `selected` comes up, with the retry counter `j`
      starting at zero; give up (the source panics) once `j` exceeds `limit`. */
  method DrawUnselected(selected: set<nat>, len: nat, limit: nat, draws: Draws, pos: nat)
    returns (m: Option<nat>, pos': nat)
    requires 0 < len
    ensures m.Some? <==> Pick(selected, len, limit, draws, pos, 0).Some?
    ensures m.Some? ==> Pick(selected, len, limit, draws, pos, 0) == Some((m.value, pos'))
    ensures m.Some? ==> m.value < len && m.value !in selected
  {
    var j := 0;
    pos' := pos;
    while true
      invariant 0 <= j <= limit + 1 && pos <= pos'
      invariant Pick(selected, len, limit, draws, pos, 0) == Pick(selected, len, limit, draws, pos', j)
      decreases limit + 1 - j
    {
      if j > limit {
        return None, pos';
      }
      var k := Intn(draws, pos', len);
      pos' := pos' + 1;
      if k !in selected {
        return Some(k), pos';
      }
      j := j + 1;
    }
  }

  /** selectRandomUsers: no users for `n == 0`, the whole list once `n`
      reaches its length, and otherwise `n` picks of fresh indices. A failed
      sampling run leaves the cursor unspecified: the source panics there. */
  method SelectRandomUsers(n: int, users: seq<Login>, draws: Draws, pos: nat)
    returns (res: Result<seq<Login>, Error>, pos': nat)
    ensures res == Sample(n, users, draws, pos).0
    ensures res.Ok? ==> pos' == Sample(n, users, draws, pos).1
    ensures n <= 0 ==> res == Ok([])
    ensures 0 < n && |users| <= n ==> res == Ok(users)
    ensures res.Ok? && 0 < n < |users| ==> |res.value| == n
    ensures n <= 0 || |users| <= n ==> pos' == pos
  {
    if n == 0 {
      return Ok([]), pos;
    }
    if n >= |users| {
      return Ok(users), pos;
    }
    if n < 0 {
      // the selection loop of the source runs zero times for a negative n
      return Ok([]), pos;
    }
    res, pos' := DrawSelections(n, users, draws, pos);
  }

  /** The selection loop: `n` rounds, each keeping the first fresh index
      that the retry loop draws, or giving up when a round draws none. */
  method DrawSelections(n: nat, users: seq<Login>, draws: Draws, pos: nat)
    returns (res: Result<seq<Login>, Error>, pos': nat)
    requires 0 < n < |users|
    ensures res == Sample(n, users, draws, pos).0
    ensures res.Ok? ==> pos' == Sample(n, users, draws, pos).1 && |res.value| == n
  {
    var selected: set<nat> := {};
    var selections: seq<Login> := [];
    ghost var picked: seq<nat> := [];
    pos' := pos;
    for i := 0 to n
      invariant |picked| == i == |selections| == |selected|
      invariant DistinctIndices(picked, |users|) && selected == Elems(picked)
      invariant forall k :: 0 <= k < i ==> selections[k] == users[picked[k]]
      invariant PickAll(n, |users|, draws, pos, []) == PickAll(n, |users|, draws, pos', picked)
    {
      PickAllStep(n, |users|, draws, pos', picked);
      var m;
      m, pos' := DrawUnselected(selected, |users|, n * 5, draws, pos');
      if m.None? {
        // the source panics here: no fresh index within the retry bound
        assert PickAll(n, |users|, draws, pos, []).None?;
        return Err(SamplingExhausted), pos';
      }
      assert Elems(picked + [m.value]) == selected + {m.value};
      selected := selected + {m.value};
      selections := selections + [users[m.value]];
      picked := picked + [m.value];
      NoDupCard(picked);
    }
    assert selections == Select(users, picked);
    assert PickAll(n, |users|, draws, pos, []) == Some((picked, pos'));
    assert Sample(n, users, draws, pos) == (Ok(selections), pos');
    res := Ok(selections);
  }
}
