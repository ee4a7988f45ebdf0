# NUClear reactor dispatch, modelled in Dafny

This project models the type-keyed publish/subscribe dispatcher of the
`nuclear` prototype. It has three parts:

- **The data store** (`ReactorControl`). Each payload type has one slot that
  holds the latest emitted pointer. `emit` overwrites the slot. `get` reads it,
  and inserts a null slot for a type that was never emitted.
- **Registration** (`on`). A reactor declares a callback with a Trigger list
  and a With list. `buildCallback` wraps the callback in one zero-argument
  closure. When the closure runs, it fetches one value per type of
  `Triggers ++ Withs`, in that order. `bindTriggers` appends that one closure to
  the callback list of every trigger type. With types are never registered.
- **Dispatch** (`notify<T>`). It runs every closure in T's list once, in
  insertion order.

Files:

- `wrappers.dfy`: `Option`. `None` stands for a null pointer.
- `store.dfy`: module `Store`. It holds `TypeKey`, the slot map, the functions
  `Emitted` and `Fetched` that specify `emit` and `get`, and the class
  `ReactorControl`.
- `reactor.dfy`: module `Reactor`. A closure is a `Wrapper` value: the
  callback id and the types it reads. Running it (`Invoke`) yields a `Call`
  that records the callback and the arguments it received. `Bound` specifies
  the registry after `bindTriggers`. The class `Reactor` has `m_callbacks` as a
  `map<TypeKey, seq<Wrapper>>` field, and its methods mirror `on`,
  `bindTriggers`, `bindTriggersImpl`, `getCallbackList` and `notify`.
- `demo.dfy`: module `Demo`. It holds the `Vision` reactor and the `main`
  driver of nuclear/main.cpp, plus a scenario in which data is emitted after
  registration.

nuclear/main.cpp contains its own copy of `Reactor` (lines 36-127). That copy
is the library code of nuclear/Reactor.h with these differences: it lacks the
library's `std::cout` lines (nuclear/Reactor.h:159, 161, 224) and the
`reactorController.subscribe<T>(this)` call (nuclear/Reactor.h:228), it adds a
`std::cerr` line in `OnImpl::operator()` (nuclear/main.cpp:81), and its
wrappers read from `ReactorControl` rather than `ReactorController`. The class
`Reactor.Reactor` models both. The ghost field `subscribed` records the
`subscribe` calls that only the library version makes, and no method reads it.

The wrappers read from a `ReactorControl`. nuclear/Reactor.h reads from a
`ReactorController` instead. ReactorController.h is not part of this model, so
its `get` is taken to behave like `ReactorControl::get`.

The code has no error path:

- `get` returns a null pointer for a type that was never emitted, and the
  wrapper dereferences it, which is undefined behaviour. `Reactor.Notify`
  therefore requires that every type read by the notified list holds a
  non-null value.
- An `on` with an empty trigger list matches no `bindTriggers` overload and
  does not compile. `On` and `OnWith` therefore require a non-empty trigger
  list.

## Model

| member | source | states |
|---|---|---|
| `Store.Emitted` | nuclear/main.cpp:28-31 | after `emit`, the slot for the type holds the new pointer; every other slot is unchanged; the key set grows by that type only |
| `Store.Fetched` | nuclear/main.cpp:23-26 | `get` returns the slot's pointer and never changes an existing slot; a type never emitted yields null, and a null slot is inserted for it |
| `Store.GetAfterEmit` | nuclear/main.cpp:23-31 | after `emit(v)`, `get` returns `v` and leaves the store unchanged |
| `Store.EmitReplaces` | nuclear/main.cpp:28-31 | a second `emit` replaces the first; `get` then returns the second value and no history is kept |
| `Store.EmitLeavesOthers` | nuclear/main.cpp:28-31 | `emit` for one type leaves what `get` returns for every other type unchanged |
| `Store.ReactorControl.constructor` | nuclear/main.cpp:21-34 | a new store holds no slots |
| `Store.ReactorControl.Get` | nuclear/main.cpp:23-26 | returns the pointer and leaves the store as `Fetched` describes, default insertion included |
| `Store.ReactorControl.Emit` | nuclear/main.cpp:28-31 | overwrites the slot in place, as `Emitted` describes |
| `Reactor.Resolve` | nuclear/Reactor.h:186 | the pack expansion of `get` yields one value per required type; the value at position i is the one currently stored for the i-th type |
| `Reactor.ResolveAppend` | nuclear/Reactor.h:180 | resolving `Ts ++ Ws` gives the trigger values followed by the with values |
| `Reactor.BuildCallback` | nuclear/Reactor.h:183-190 | the wrapper captures only the callback and the key list `Ts ++ Ws`; it takes no store, so nothing is read until `Invoke` runs it; its meaning is stated by `BuildCallbackArgumentOrder` and `InvokeSeesLatestEmit` (the copy at nuclear/main.cpp:88-96 is the same) |
| `Reactor.Invoke` | nuclear/Reactor.h:185-187 | running a wrapper calls its callback once, with exactly one argument per required type, taken from the store at the moment it runs |
| `Reactor.BuildCallbackArgumentOrder` | nuclear/Reactor.h:180-190 | the wrapper that `on<Trigger<Ts...>, With<Ws...>>` builds passes the trigger values first and then the with values, each group in the declared order |
| `Reactor.InvokeSeesLatestEmit` | nuclear/Reactor.h:185-187 | arguments are read when the wrapper runs, not when it is registered: after `emit` of a type, every argument of that type sees the new value and the others keep theirs |
| `Reactor.ReadyGetsInsertNothing` | nuclear/main.cpp:88-96 | when every required type holds a value, each `get` that the wrapper makes returns that value and inserts nothing into the store |
| `Reactor.Bound` | nuclear/Reactor.h:198-214 | binding adds exactly the trigger types to the registry's keys and leaves the lists of all other types unchanged |
| `Reactor.BoundSingle` | nuclear/Reactor.h:198-201 | binding a single type appends the wrapper to that type's list and changes nothing else |
| `Reactor.BoundAppends` | nuclear/Reactor.h:210-226 | binding appends the wrapper to the end of each type's list once per occurrence of that type in the trigger list; the earlier entries keep their order |
| `Reactor.WithTypesNotRegistered` | nuclear/Reactor.h:175-181 | a type that is only in the With list gains no entry from that `on` |
| `Reactor.BoundOncePerTrigger` | nuclear/Reactor.h:210-226 | with distinct triggers, one `on` makes the wrapper the new last entry of each trigger's list, exactly once |
| `Reactor.Reactor.constructor` | nuclear/main.cpp:38-41 | a new reactor keeps the store reference and has no callbacks |
| `Reactor.Reactor.Notify` | nuclear/Reactor.h:156-164 | runs exactly the wrappers of the type's list, each exactly once, in insertion order, against the current store; an empty list is inserted for a type with no registrations and nothing runs; all other lists are unchanged |
| `Reactor.Reactor.On` | nuclear/Reactor.h:146-149 | `on<Trigger<...>>` is `on` with an empty With list: the wrapper reads the triggers only |
| `Reactor.Reactor.OnWith` | nuclear/Reactor.h:151-181 | builds one wrapper over `Ts ++ Ws` and binds it under the trigger types only; requires a non-empty trigger list |
| `Reactor.Reactor.BindTriggers` | nuclear/Reactor.h:198-214 | the new registry is `Bound` of the old one; `subscribe` is called for each trigger type, first to last |
| `Reactor.Reactor.BindTrigger` | nuclear/Reactor.h:198-201 | appends the wrapper to one type's list and subscribes that type |
| `Reactor.Reactor.BindTriggersImpl` | nuclear/Reactor.h:222-229 | `push_back` onto the type's list, which is created empty if it is absent, then `subscribe` |
| `Reactor.Reactor.GetCallbackList` | nuclear/Reactor.h:236-243 | returns the existing list unchanged; if there is none, inserts an empty list for that type; no other key is touched |
| `Demo.Vision` | nuclear/main.cpp:133-143 | CameraData's list holds `react`, the double-trigger lambda and `reactInner`, in that order; MotorData's list holds only the lambda; every wrapper reads (CameraData, MotorData) |
| `Demo.RunMain` | nuclear/main.cpp:150-160 | `notify<CameraData>` runs the three callbacks in order and `notify<MotorData>` runs the lambda, so the lambda runs twice in total, both times with (camera, motor) arguments |
| `Demo.LateEmit` | nuclear/main.cpp:88-96 | registration needs no data; a with value emitted between two notifies is what the second call receives |

## Left out

- Console output (`std::cout`, `std::cerr`) is left out. The user callbacks only print, so each one is an opaque id, and running it is recorded as a `Call` in a trace.
- `Reactor.Reactor.Notify`: for the nuclear/Reactor.h version, the trace contract assumes that `ReactorController::get` behaves like `ReactorControl::get` (nuclear/main.cpp:23-26). ReactorController.h is not part of this model.
- `reactorController.subscribe<T>(this)` is recorded only as the ghost log `subscribed`. The controller is not part of this model, so what `subscribe` does is not modelled.
- Concurrency is left out. The "multithreaded" remark in the class comment has no code behind it, so the model is sequential.
- The template machinery is left out: `OnImpl` specialisation, the `reinterpret_cast` placeholder, and `typeid`/`type_index`. Types are explicit `TypeKey`s, and type packs are sequences.
- Pointer ownership and the `void*` casts are left out. The payloads that `main` allocates are never freed, and a slot holds the payload value itself.
- `Reactor.Reactor.Notify`: a read of a never-emitted or null slot is undefined behaviour in the code, so it is excluded by a precondition rather than modelled.
- `Reactor.Reactor.Notify`: callbacks that re-enter the reactor during dispatch are not modelled. The source's callbacks only print.
- The wrapper has no identity. Two `on` calls with the same callback id and the same type lists produce equal `Wrapper` values, although the code builds two closures. Those two closures behave the same.
- The `Reactor` destructor and the library constructor are declared in nuclear/Reactor.h without bodies. Reactor.cpp is not part of this model.
