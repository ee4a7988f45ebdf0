/**
 * The dispatcher of nuclear/Reactor.h. nuclear/main.cpp holds a copy of the
 * same code without the library's `std::cout` lines and `subscribe` call,
 * with one extra `std::cerr` line, reading from `ReactorControl`.
 *
 * `on<Trigger<Ts...>, With<Ws...>>(f)` wraps `f` in one zero-argument closure
 * that, when run, fetches the current value of every type in `Ts ++ Ws` from
 * the store and passes them to `f` in that order. The same closure is appended
 * to the callback list of every type in `Ts`. `notify<T>()` runs T's list in
 * order. Template recursion over type packs becomes recursion or iteration
 * over a `seq<TypeKey>`; a user callback is an opaque `CallbackId`, and
 * running it is recorded as a `Call` in a trace.
 */
module Reactor {
  import opened Wrappers
  import opened Store

  /** Identifies one user callback passed to `on`. */
  type CallbackId = nat

  /** The `std::function<void ()>` built by `buildCallback`: the callback and
      the types whose values it fetches, in argument order. */
  datatype Wrapper = Wrapper(callback: CallbackId, required: seq<TypeKey>)

  /** One run of a user callback with the arguments it received. */
  datatype Call<V> = Call(callback: CallbackId, args: seq<V>)

  /** The contents of `m_callbacks`. */
  type Registry = map<TypeKey, seq<Wrapper>>

  /** Every type in `keys` holds a non-null value, so dereferencing the
      result of `get` for each of them is defined. */
  predicate Ready<V>(m: Slots<V>, keys: seq<TypeKey>) {
    forall i :: 0 <= i < |keys| ==> keys[i] in m && m[keys[i]].Some?
  }

  /** Every wrapper in `ws` can be run against `m`. */
  predicate AllReady<V>(m: Slots<V>, ws: seq<Wrapper>) {
    forall i :: 0 <= i < |ws| ==> Ready(m, ws[i].required)
  }

  /** The pack expansion `(*get<Ts>())...`: one value per key, in key order. */
  function Resolve<V>(m: Slots<V>, keys: seq<TypeKey>): (vs: seq<V>)
    requires Ready(m, keys)
    ensures |vs| == |keys|
    ensures forall i :: 0 <= i < |keys| ==> m[keys[i]] == Some(vs[i])
  {
    if keys == [] then []
    else
      assert Ready(m, keys[1..]) by {
        forall i | 0 <= i < |keys[1..]| ensures keys[1..][i] in m && m[keys[1..][i]].Some? {
          assert keys[1..][i] == keys[i + 1];
        }
      }
      [m[keys[0]].value] + Resolve(m, keys[1..])
  }

  /** Resolving a concatenation resolves each part in turn. */
  lemma {:induction false} ResolveAppend<V>(m: Slots<V>, a: seq<TypeKey>, b: seq<TypeKey>)
    requires Ready(m, a) && Ready(m, b)
    ensures Ready(m, a + b)
    ensures Resolve(m, a + b) == Resolve(m, a) + Resolve(m, b)
  {
    assert Ready(m, a + b) by {
      forall i | 0 <= i < |a + b| ensures (a + b)[i] in m && m[(a + b)[i]].Some? {
        if i < |a| { assert (a + b)[i] == a[i]; } else { assert (a + b)[i] == b[i - |a|]; }
      }
    }
    if a != [] {
      assert (a + b)[1..] == a[1..] + b;
      assert Ready(m, a[1..]) by {
        forall i | 0 <= i < |a[1..]| ensures a[1..][i] in m && m[a[1..][i]].Some? {
          assert a[1..][i] == a[i + 1];
        }
      }
      ResolveAppend(m, a[1..], b);
    }
  }

  /** `buildCallback<TFunc, Ts..., Ws...>(callback)`: captures only the
      callback and the key list; nothing is read from the store here. */
  function BuildCallback(callback: CallbackId, triggersAndWiths: seq<TypeKey>): (w: Wrapper)
    ensures w.callback == callback
    ensures w.required == triggersAndWiths
  {
    Wrapper(callback, triggersAndWiths)
  }

  /** Running a wrapper: the callback receives, at position `i`, the value
      currently stored for the `i`-th required type. */
  function Invoke<V>(w: Wrapper, m: Slots<V>): (c: Call<V>)
    requires Ready(m, w.required)
    ensures c.callback == w.callback
    ensures |c.args| == |w.required|
    ensures forall i :: 0 <= i < |w.required| ==> m[w.required[i]] == Some(c.args[i])
  {
    Call(w.callback, Resolve(m, w.required))
  }

  /** The wrapper built for `on<Trigger<Ts...>, With<Ws...>>(f)` passes the
      trigger values first, then the with values, each group in declared order. */
  lemma BuildCallbackArgumentOrder<V>(m: Slots<V>, f: CallbackId, ts: seq<TypeKey>, ws: seq<TypeKey>)
    requires Ready(m, ts) && Ready(m, ws)
    ensures Ready(m, BuildCallback(f, ts + ws).required)
    ensures Invoke(BuildCallback(f, ts + ws), m) == Call(f, Resolve(m, ts) + Resolve(m, ws))
  {
    ResolveAppend(m, ts, ws);
  }

  /** The wrapper reads the store when it runs, not when it was built: after
      `emit` of `k`, every argument position of type `k` sees the new value and
      every other position is what it was. */
  lemma InvokeSeesLatestEmit<V>(w: Wrapper, m: Slots<V>, k: TypeKey, v: V)
    requires Ready(m, w.required)
    ensures Ready(Emitted(m, k, Some(v)), w.required)
    ensures forall i :: 0 <= i < |w.required| ==>
      Invoke(w, Emitted(m, k, Some(v))).args[i] ==
        if w.required[i] == k then v else Invoke(w, m).args[i]
  {
  }

  /** Under `Ready`, each `get` inside the wrapper returns the resolved value
      and inserts nothing into the store. */
  lemma ReadyGetsInsertNothing<V>(m: Slots<V>, keys: seq<TypeKey>, i: nat)
    requires Ready(m, keys) && i < |keys|
    ensures Fetched(m, keys[i]) == (Some(Resolve(m, keys)[i]), m)
  {
  }

  /** The list for `k`, or the empty list `getCallbackList` would insert. */
  function ListOf(r: Registry, k: TypeKey): seq<Wrapper> {
    if k in r then r[k] else []
  }

  /** `n` copies of `w`. */
  function Repeat(w: Wrapper, n: nat): (s: seq<Wrapper>)
    ensures |s| == n
    ensures forall i :: 0 <= i < n ==> s[i] == w
  {
    if n == 0 then [] else [w] + Repeat(w, n - 1)
  }

  /** The registry after `bindTriggers<Ts...>(w)`: one `push_back` of `w` for
      each entry of `ts`, first to last. Types not in `ts` are not touched. */
  function Bound(r: Registry, ts: seq<TypeKey>, w: Wrapper): (r': Registry)
    ensures r'.Keys == r.Keys + set t | t in ts
    ensures forall k :: k in r && k !in ts ==> r'[k] == r[k]
    decreases |ts|
  {
    if ts == [] then r
    else Bound(r[ts[0] := ListOf(r, ts[0]) + [w]], ts[1..], w)
  }

  /** Binding a single type appends `w` to that type's list only. */
  lemma BoundSingle(r: Registry, k: TypeKey, w: Wrapper)
    ensures Bound(r, [k], w) == r[k := ListOf(r, k) + [w]]
  {
    assert [k][1..] == [];
  }

  /** Binding appends `w` to the END of each type's list, once per occurrence
      of that type in the trigger list; earlier entries keep their order. */
  lemma {:induction false} BoundAppends(r: Registry, ts: seq<TypeKey>, w: Wrapper, k: TypeKey)
    ensures ListOf(Bound(r, ts, w), k) == ListOf(r, k) + Repeat(w, multiset(ts)[k])
    decreases |ts|
  {
    if ts == [] {
      assert Repeat(w, 0) == [];
    } else {
      var r1 := r[ts[0] := ListOf(r, ts[0]) + [w]];
      BoundAppends(r1, ts[1..], w, k);
      assert ts == [ts[0]] + ts[1..];
      assert multiset(ts) == multiset{ts[0]} + multiset(ts[1..]);
      var n := multiset(ts[1..])[k];
      if ts[0] == k {
        assert ListOf(r1, k) == ListOf(r, k) + [w];
        assert multiset(ts)[k] == n + 1;
        assert [w] + Repeat(w, n) == Repeat(w, n + 1);
      } else {
        assert ListOf(r1, k) == ListOf(r, k);
        assert multiset(ts)[k] == n;
      }
    }
  }

  /** A type that occurs in a With list but not in the Trigger list gains no
      entry from that `on`, so notifying it runs nothing of that registration. */
  lemma WithTypesNotRegistered(r: Registry, f: CallbackId, ts: seq<TypeKey>, ws: seq<TypeKey>, k: TypeKey)
    requires k in ws && k !in ts
    ensures ListOf(Bound(r, ts, BuildCallback(f, ts + ws)), k) == ListOf(r, k)
  {
    BoundAppends(r, ts, BuildCallback(f, ts + ws), k);
    assert multiset(ts)[k] == 0;
  }

  /** In a list without repeats, every entry occurs exactly once. */
  lemma {:induction false} OccursOnce(ts: seq<TypeKey>, i: nat)
    requires i < |ts|
    requires forall a, b :: 0 <= a < b < |ts| ==> ts[a] != ts[b]
    ensures multiset(ts)[ts[i]] == 1
    decreases |ts|
  {
    assert ts == [ts[0]] + ts[1..];
    assert multiset(ts) == multiset{ts[0]} + multiset(ts[1..]);
    if i == 0 {
      assert ts[0] !in ts[1..] by {
        forall a | 0 <= a < |ts[1..]| ensures ts[1..][a] != ts[0] {
          assert ts[1..][a] == ts[a + 1];
        }
      }
    } else {
      assert ts[1..][i - 1] == ts[i];
      OccursOnce(ts[1..], i - 1);
    }
  }

  /** A wrapper bound under distinct triggers appears exactly once more in
      each trigger's list, as its last entry. */
  lemma BoundOncePerTrigger(r: Registry, ts: seq<TypeKey>, w: Wrapper, i: nat)
    requires i < |ts|
    requires forall a, b :: 0 <= a < b < |ts| ==> ts[a] != ts[b]
    ensures ListOf(Bound(r, ts, w), ts[i]) == ListOf(r, ts[i]) + [w]
  {
    BoundAppends(r, ts, w, ts[i]);
    OccursOnce(ts, i);
    assert Repeat(w, 1) == [w];
  }

  /** A reactor: its own callback registry and the store its wrappers read. */
  class Reactor<V> {
    /** The `reactorController` reference the wrappers read from. */
    const control: ReactorControl<V>
    /** `m_callbacks`. */
    var callbacks: Registry
    /** The types passed to `reactorController.subscribe<T>(this)`, in call
        order. Ghost: the controller's reaction to it is not modelled. */
    ghost var subscribed: seq<TypeKey>

    constructor (control: ReactorControl<V>)
      ensures this.control == control
      ensures callbacks == map[] && subscribed == []
    {
      this.control := control;
      callbacks := map[];
      subscribed := [];
    }

    /** `notify<T>()`: runs every wrapper of `k`'s list once, in insertion
        order, against the store as it is now. */
    method Notify(k: TypeKey) returns (trace: seq<Call<V>>)
      requires AllReady(control.data, ListOf(callbacks, k))
      modifies this`callbacks
      ensures callbacks.Keys == old(callbacks).Keys + {k}
      ensures forall j :: j in old(callbacks) ==> callbacks[j] == old(callbacks)[j]
      ensures callbacks[k] == ListOf(old(callbacks), k)
      ensures |trace| == |ListOf(old(callbacks), k)|
      ensures forall i :: 0 <= i < |trace| ==>
        trace[i] == Invoke(ListOf(old(callbacks), k)[i], control.data)
    {
      var list := GetCallbackList(k);
      trace := [];
      var i := 0;
      while i < |list|
        invariant 0 <= i <= |list|
        invariant |trace| == i
        invariant forall j :: 0 <= j < i ==> trace[j] == Invoke(list[j], control.data)
      {
        trace := trace + [Invoke(list[i], control.data)];
        i := i + 1;
      }
    }

    /** `on<Trigger<Ts...>>(f)`: the same as `on` with an empty With list. */
    method On(triggers: seq<TypeKey>, f: CallbackId)
      requires |triggers| > 0
      modifies this
      ensures callbacks == Bound(old(callbacks), triggers, BuildCallback(f, triggers + []))
      ensures subscribed == old(subscribed) + triggers
    {
      OnWith(triggers, [], f);
    }

    /** `on<Trigger<Ts...>, With<Ws...>>(f)` through `OnImpl::operator()`:
        one wrapper over `Ts ++ Ws`, bound under the trigger types only. An
        empty trigger list selects no `bindTriggers` overload and does not
        compile, hence the precondition. */
    method OnWith(triggers: seq<TypeKey>, withs: seq<TypeKey>, f: CallbackId)
      requires |triggers| > 0
      modifies this
      ensures callbacks == Bound(old(callbacks), triggers, BuildCallback(f, triggers + withs))
      ensures subscribed == old(subscribed) + triggers
    {
      BindTriggers(triggers, BuildCallback(f, triggers + withs));
    }

    /** The two `bindTriggers` overloads: a single type binds directly; a list
        of two or more binds its first type, then the rest. */
    method BindTriggers(triggers: seq<TypeKey>, w: Wrapper)
      requires |triggers| > 0
      modifies this
      ensures callbacks == Bound(old(callbacks), triggers, w)
      ensures subscribed == old(subscribed) + triggers
      decreases |triggers|
    {
      ghost var r := callbacks;
      ghost var r1 := r[triggers[0] := ListOf(r, triggers[0]) + [w]];
      assert Bound(r, triggers, w) == Bound(r1, triggers[1..], w);
      if |triggers| == 1 {
        BindTrigger(triggers[0], w);
        assert triggers[1..] == [];
      } else {
        BindTrigger(triggers[0], w);
        BindTriggers(triggers[1..], w);
        assert [triggers[0]] + triggers[1..] == triggers;
      }
    }

    /** The single-type `bindTriggers<T>`, forwarding to `bindTriggersImpl`. */
    method BindTrigger(k: TypeKey, w: Wrapper)
      modifies this
      ensures callbacks == old(callbacks)[k := ListOf(old(callbacks), k) + [w]]
      ensures subscribed == old(subscribed) + [k]
    {
      BindTriggersImpl(k, w);
    }

    /** `bindTriggersImpl<T>`: `push_back` onto `k`'s list, then subscribe. */
    method BindTriggersImpl(k: TypeKey, w: Wrapper)
      modifies this
      ensures callbacks == old(callbacks)[k := ListOf(old(callbacks), k) + [w]]
      ensures subscribed == old(subscribed) + [k]
    {
      var list := GetCallbackList(k);
      callbacks := callbacks[k := list + [w]];
      subscribed := subscribed + [k];
    }

    /** `getCallbackList<T>`: returns `k`'s list, first inserting an empty one
        when `k` has none; no other entry changes. */
    method GetCallbackList(k: TypeKey) returns (list: seq<Wrapper>)
      modifies this`callbacks
      ensures list == ListOf(old(callbacks), k)
      ensures callbacks.Keys == old(callbacks).Keys + {k}
      ensures callbacks[k] == list
      ensures forall j :: j in old(callbacks) ==> callbacks[j] == old(callbacks)[j]
    {
      if k !in callbacks {
        callbacks := callbacks[k := []];
      }
      list := callbacks[k];
    }
  }
}
