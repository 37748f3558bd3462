/**
 * The situation: what the user has answered so far, as a map from rule name
 * to the expression given for it (src/main.ts). It is read once at startup
 * and afterwards changed only by merging one binding at a time.
 */
module SituationStore {
  import opened Wrappers

  /** A rule of the rule base, named by its dotted publicodes name. */
  type RuleName = string

  /** At most one expression per rule name. `E` stands for a publicodes expression. */
  type Situation<E> = map<RuleName, E>

  /** The payload of one `updateSituation` request: a rule and its new expression. */
  type Binding<E> = (RuleName, E)

  /** The binding of `rule` in `s`, if any. */
  function Lookup<E>(s: Situation<E>, rule: RuleName): Option<E>
  {
    if rule in s then Some(s[rule]) else None
  }

  /**
   * Startup (src/main.ts:9): the situation kept under the storage key, or the
   * empty situation when the key is absent.
   */
  function Load<E>(stored: Option<Situation<E>>): (s: Situation<E>)
    ensures stored.None? ==> s == map[]
    ensures stored.Some? ==> s == stored.value
  {
    match stored
    case None => map[]
    case Some(saved) => saved
  }

  /** The merge of src/main.ts:36: a copy of `s` with `rule` bound to `value`, inserted or overwritten. */
  function Merge<E>(s: Situation<E>, rule: RuleName, value: E): (r: Situation<E>)
    ensures rule in r && r[rule] == value
    ensures r.Keys == s.Keys + {rule}
    ensures forall k :: k in s && k != rule ==> r[k] == s[k]
  {
    s[rule := value]
  }

  /** Merging the same binding twice is the same as merging it once. */
  lemma MergeIdempotent<E>(s: Situation<E>, rule: RuleName, value: E)
    ensures Merge(Merge(s, rule, value), rule, value) == Merge(s, rule, value)
  {
  }

  /** Of two merges for the same rule, the later one wins. */
  lemma MergeLastWriteWins<E>(s: Situation<E>, rule: RuleName, first: E, second: E)
    ensures Merge(Merge(s, rule, first), rule, second) == Merge(s, rule, second)
  {
  }

  /** Merges for two different rules do not interfere: both bindings survive, in either order. */
  lemma MergeNoCrossTalk<E>(s: Situation<E>, r1: RuleName, v1: E, r2: RuleName, v2: E)
    requires r1 != r2
    ensures Merge(Merge(s, r1, v1), r2, v2) == Merge(Merge(s, r2, v2), r1, v1)
    ensures Lookup(Merge(Merge(s, r1, v1), r2, v2), r1) == Some(v1)
    ensures Lookup(Merge(Merge(s, r1, v1), r2, v2), r2) == Some(v2)
  {
  }

  /** The situation reached from `s` by handling the `updateSituation` requests `updates` in order. */
  function Replay<E>(s: Situation<E>, updates: seq<Binding<E>>): Situation<E>
    decreases |updates|
  {
    if updates == [] then s
    else Replay(Merge(s, updates[0].0, updates[0].1), updates[1..])
  }

  /** Handling one more request after a run is one more merge. */
  lemma {:induction false} ReplaySnoc<E>(s: Situation<E>, updates: seq<Binding<E>>, u: Binding<E>)
    ensures Replay(s, updates + [u]) == Merge(Replay(s, updates), u.0, u.1)
    decreases |updates|
  {
    if updates == [] {
      assert updates + [u] == [u];
      assert [u][1..] == [];
    } else {
      assert (updates + [u])[1..] == updates[1..] + [u];
      ReplaySnoc(Merge(s, updates[0].0, updates[0].1), updates[1..], u);
    }
  }

  /** The rules named by a run of `updateSituation` requests. */
  function UpdatedRules<E>(updates: seq<Binding<E>>): set<RuleName>
  {
    set i | 0 <= i < |updates| :: updates[i].0
  }

  /** The rules answered after a run are those answered before plus those updated; no key is removed. */
  lemma {:induction false} ReplayKeys<E>(s: Situation<E>, updates: seq<Binding<E>>)
    ensures Replay(s, updates).Keys == s.Keys + UpdatedRules(updates)
    decreases |updates|
  {
    if updates != [] {
      var rest := updates[1..];
      ReplayKeys(Merge(s, updates[0].0, updates[0].1), rest);
      var all, tail := UpdatedRules(updates), UpdatedRules(rest);
      forall k | k in all ensures k in {updates[0].0} + tail {
        var i :| 0 <= i < |updates| && updates[i].0 == k;
        if i > 0 { assert rest[i - 1].0 == k; }
      }
      forall k | k in tail ensures k in all {
        var i :| 0 <= i < |rest| && rest[i].0 == k;
        assert updates[i + 1].0 == k;
      }
    }
  }

  /** Last write wins: a rule holds the value of the last request that named it. */
  lemma {:induction false} ReplayLastWriteWins<E>(s: Situation<E>, updates: seq<Binding<E>>, i: nat)
    requires i < |updates|
    requires forall j :: i < j < |updates| ==> updates[j].0 != updates[i].0
    ensures Lookup(Replay(s, updates), updates[i].0) == Some(updates[i].1)
    decreases |updates|
  {
    var rest := updates[1..];
    var s' := Merge(s, updates[0].0, updates[0].1);
    if i == 0 {
      ReplayUntouched(s', rest, updates[0].0);
    } else {
      forall j | i - 1 < j < |rest| ensures rest[j].0 != rest[i - 1].0 {
        assert rest[j].0 == updates[j + 1].0;
      }
      ReplayLastWriteWins(s', rest, i - 1);
    }
  }

  /** A rule that no request names keeps its binding, or stays unbound. */
  lemma {:induction false} ReplayUntouched<E>(s: Situation<E>, updates: seq<Binding<E>>, rule: RuleName)
    requires forall j :: 0 <= j < |updates| ==> updates[j].0 != rule
    ensures Lookup(Replay(s, updates), rule) == Lookup(s, rule)
    decreases |updates|
  {
    if updates != [] {
      var rest := updates[1..];
      forall j | 0 <= j < |rest| ensures rest[j].0 != rule {
        assert rest[j] == updates[j + 1];
      }
      ReplayUntouched(Merge(s, updates[0].0, updates[0].1), rest, rule);
    }
  }
}
