/**
 * Who receives a hook call: every wrapper (initialisation, file subscription,
 * shutdown), the enabled ones (host events), or the enabled ones except the sender
 * (plugin-to-plugin events); and how the enabled wrappers are cut into batches for
 * the multi-threaded EntityAdded path.
 */
module Dispatch {
  import opened Plugins
  import opened Seqs

  datatype Audience = Everyone | EnabledOnly | EnabledExcept(owner: nat)

  predicate Accepts(audience: Audience, p: PluginWrapper)
  {
    match audience
    case Everyone => true
    case EnabledOnly => p.isEnable
    case EnabledExcept(owner) => p.isEnable && p.id != owner
  }

  /** The wrappers of `ps` that receive a call for `audience`, in registry order. */
  function Select(ps: seq<PluginWrapper>, audience: Audience): (r: seq<PluginWrapper>)
    ensures IsSubseq(r, ps)
  {
    if ps == [] then []
    else
      var rest := Select(ps[1..], audience);
      assert ps == [ps[0]] + ps[1..];
      if Accepts(audience, ps[0]) then
        SubseqCons(ps[0], rest, ps[1..]);
        [ps[0]] + rest
      else
        SubseqSkip(ps[0], rest, ps[1..]);
        rest
  }

  /** Exactly the wrappers of `ps` that `audience` accepts are selected. */
  lemma {:induction false} SelectMembers(ps: seq<PluginWrapper>, audience: Audience)
    ensures forall p :: p in Select(ps, audience) <==> p in ps && Accepts(audience, p)
  {
    if ps != [] {
      SelectMembers(ps[1..], audience);
      assert ps == [ps[0]] + ps[1..];
    }
  }

  lemma {:induction false} SelectAppend(a: seq<PluginWrapper>, b: seq<PluginWrapper>, audience: Audience)
    ensures Select(a + b, audience) == Select(a, audience) + Select(b, audience)
  {
    AppendParts(a, b);
    if a != [] {
      SelectAppend(a[1..], b, audience);
    }
  }

  /** One call of `hook` on each wrapper of `ps`, in order. */
  function Calls(ps: seq<PluginWrapper>, hook: Hook): (r: seq<Call>)
  {
    if ps == [] then [] else [Call(ps[0].id, hook)] + Calls(ps[1..], hook)
  }

  lemma {:induction false} CallsAppend(a: seq<PluginWrapper>, b: seq<PluginWrapper>, hook: Hook)
    ensures Calls(a + b, hook) == Calls(a, hook) + Calls(b, hook)
  {
    AppendParts(a, b);
    if a != [] {
      CallsAppend(a[1..], b, hook);
    }
  }

  /** The calls a fan-out over `ps` issues: `hook` on each wrapper of the audience, in registry order. */
  function Deliveries(ps: seq<PluginWrapper>, hook: Hook, audience: Audience): (r: seq<Call>)
  {
    Calls(Select(ps, audience), hook)
  }

  /** A fan-out loop that has visited `ps[..i]` has issued the deliveries of that prefix. */
  lemma DeliveriesStep(ps: seq<PluginWrapper>, i: nat, hook: Hook, audience: Audience)
    requires i < |ps|
    ensures Deliveries(ps[..i + 1], hook, audience) ==
      Deliveries(ps[..i], hook, audience) + (if Accepts(audience, ps[i]) then [Call(ps[i].id, hook)] else [])
  {
    assert ps[..i + 1] == ps[..i] + [ps[i]];
    SelectAppend(ps[..i], [ps[i]], audience);
    CallsAppend(Select(ps[..i], audience), Select([ps[i]], audience), hook);
  }

  /** Number of calls addressed to `id`. */
  function CallsTo(cs: seq<Call>, id: nat): (r: nat)
  {
    if cs == [] then 0 else (if cs[0].target == id then 1 else 0) + CallsTo(cs[1..], id)
  }

  /**
   * Every call of a fan-out carries its hook and targets a wrapper of the audience;
   * with one wrapper per plugin, each wrapper of the audience is called exactly once
   * and every other wrapper never.
   */
  lemma {:induction false} DeliveredExactlyOnce(ps: seq<PluginWrapper>, hook: Hook, audience: Audience, p: PluginWrapper)
    requires UniqueIds(ps) && p in ps
    ensures CallsTo(Deliveries(ps, hook, audience), p.id) == if Accepts(audience, p) then 1 else 0
  {
    assert ps == [ps[0]] + ps[1..];
    assert UniqueIds(ps[1..]) by {
      forall i, j | 0 <= i < j < |ps[1..]| ensures ps[1..][i].id != ps[1..][j].id {
        assert ps[1..][i] == ps[i + 1] && ps[1..][j] == ps[j + 1];
      }
    }
    var rest := Select(ps[1..], audience);
    if p == ps[0] {
      NotCalled(ps[1..], hook, audience, p.id);
    } else {
      DeliveredExactlyOnce(ps[1..], hook, audience, p);
      assert ps[0].id != p.id by {
        var j :| 0 <= j < |ps| && ps[j] == p;
      }
    }
    if Accepts(audience, ps[0]) {
      assert Select(ps, audience) == [ps[0]] + rest;
      assert Calls([ps[0]] + rest, hook)[1..] == Calls(rest, hook);
    }
  }

  /** A plugin that no wrapper of `ps` wraps receives nothing. */
  lemma {:induction false} NotCalled(ps: seq<PluginWrapper>, hook: Hook, audience: Audience, id: nat)
    requires forall i :: 0 <= i < |ps| ==> ps[i].id != id
    ensures CallsTo(Deliveries(ps, hook, audience), id) == 0
  {
    if ps != [] {
      NotCalled(ps[1..], hook, audience, id);
      var rest := Select(ps[1..], audience);
      if Accepts(audience, ps[0]) {
        assert Calls([ps[0]] + rest, hook)[1..] == Calls(rest, hook);
      }
    }
  }

  /** The sender of a plugin event never receives it back, whatever the registry holds. */
  lemma {:induction false} SenderExcluded(ps: seq<PluginWrapper>, hook: Hook, owner: nat)
    ensures CallsTo(Deliveries(ps, hook, EnabledExcept(owner)), owner) == 0
  {
    if ps != [] {
      SenderExcluded(ps[1..], hook, owner);
      var rest := Select(ps[1..], EnabledExcept(owner));
      if Accepts(EnabledExcept(owner), ps[0]) {
        assert Calls([ps[0]] + rest, hook)[1..] == Calls(rest, hook);
      }
    }
  }

  /** MoreLinq's `Batch(size)`: consecutive buckets of `size` elements, the last possibly shorter. */
  function Batch<T>(s: seq<T>, size: nat): (r: seq<seq<T>>)
    requires size > 0
    decreases |s|
  {
    if s == [] then []
    else if |s| <= size then [s]
    else [s[..size]] + Batch(s[size..], size)
  }

  /**
   * Concatenating the batches gives back the input; every batch but the last holds
   * exactly `size` elements, and the last is non-empty and holds at most `size`.
   */
  lemma BatchShape<T>(s: seq<T>, size: nat)
    requires size > 0
    ensures Flatten(Batch(s, size)) == s
    ensures var bs := Batch(s, size);
      && (bs == [] <==> s == [])
      && (forall i :: 0 <= i < |bs| - 1 ==> |bs[i]| == size)
      && (bs != [] ==> 0 < |bs[|bs| - 1]| <= size)
  {
    BatchFlatten(s, size);
    BatchSizes(s, size);
  }

  lemma {:induction false} BatchFlatten<T>(s: seq<T>, size: nat)
    requires size > 0
    ensures Flatten(Batch(s, size)) == s
    decreases |s|
  {
    if |s| > size {
      BatchFlatten(s[size..], size);
      assert Batch(s, size)[1..] == Batch(s[size..], size);
      assert s == s[..size] + s[size..];
    } else if s != [] {
      assert Batch(s, size)[1..] == [];
      assert s + [] == s;
    }
  }

  lemma {:induction false} BatchSizes<T>(s: seq<T>, size: nat)
    requires size > 0
    ensures var bs := Batch(s, size);
      && (bs == [] <==> s == [])
      && (forall i :: 0 <= i < |bs| - 1 ==> |bs[i]| == size)
      && (bs != [] ==> 0 < |bs[|bs| - 1]| <= size)
    decreases |s|
  {
    if |s| > size {
      BatchSizes(s[size..], size);
      var bs := Batch(s, size);
      var rest := Batch(s[size..], size);
      assert bs == [s[..size]] + rest;
      forall i | 0 <= i < |bs| - 1 ensures |bs[i]| == size {
        if i > 0 { assert bs[i] == rest[i - 1]; }
      }
    }
  }

  /** One job per batch; each job calls `hook` on every wrapper of its batch. */
  function BatchJobs(batches: seq<seq<PluginWrapper>>, hook: Hook): (r: seq<seq<Call>>)
  {
    if batches == [] then [] else [Calls(batches[0], hook)] + BatchJobs(batches[1..], hook)
  }

  lemma {:induction false} BatchJobsFlatten(batches: seq<seq<PluginWrapper>>, hook: Hook)
    ensures Flatten(BatchJobs(batches, hook)) == Calls(Flatten(batches), hook)
  {
    if batches != [] {
      BatchJobsFlatten(batches[1..], hook);
      CallsAppend(batches[0], Flatten(batches[1..]), hook);
    }
  }

  lemma {:induction false} BatchJobsAppend(batches: seq<seq<PluginWrapper>>, b: seq<PluginWrapper>, hook: Hook)
    ensures BatchJobs(batches + [b], hook) == BatchJobs(batches, hook) + [Calls(b, hook)]
  {
    if batches != [] {
      assert (batches + [b])[1..] == batches[1..] + [b];
      BatchJobsAppend(batches[1..], b, hook);
    }
  }

  /**
   * The multi-threaded EntityAdded path submits jobs that together issue exactly the
   * calls of the sequential path, in registry order, in jobs of `size` calls.
   */
  lemma BatchedDeliverySame(ps: seq<PluginWrapper>, hook: Hook, size: nat)
    requires size > 0
    ensures Flatten(BatchJobs(Batch(Select(ps, EnabledOnly), size), hook)) == Deliveries(ps, hook, EnabledOnly)
  {
    BatchJobsFlatten(Batch(Select(ps, EnabledOnly), size), hook);
    BatchShape(Select(ps, EnabledOnly), size);
  }
}
