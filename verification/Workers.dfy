/**
  Several workers, one work queue, one mutex.  A handler is not atomic: between
  taking and releasing the mutex it goes through any number of smaller steps,
  while other workers take keys and wait.  Still every interleaving ends where
  handling the keys one after the other, in the order the mutex was taken, ends.

  The queue is that of client-go: a key that is added while it waits to be
  taken is dropped, and one that is added while a worker has it is queued again
  when that worker is done with it.
 */
module Workers {
  import opened Options
  import opened Sequences
  import opened Handlers
  import opened Invariant
  import opened Safety

  /**
    A worker is idle, holds a key and waits for the mutex, is inside a handler
    with some steps still to do, or has released the mutex and not yet told
    the queue.
   */
  datatype Worker =
    | Idle
    | Waiting(key: string)
    | Busy(key: string, rest: seq<State -> State>)
    | Finishing(key: string)

  /**
    `dirty` and `processing` are the queue's sets: keys to be handled, and keys
    that a worker has.  `history` lists the keys in the order in which the mutex
    was taken for them, `added` all additions, `effective` those that did not find
    their key dirty, and `marks` how long the history was when a key was last
    added.  `entered` and `taken` list the keys in the order in which they came
    into the queue and left it.
   */
  datatype Machine = Machine(
    queue: seq<string>,
    dirty: set<string>,
    processing: set<string>,
    workers: seq<Worker>,
    lock: Option<nat>,
    shared: State,
    history: seq<string>,
    added: seq<string>,
    effective: seq<string>,
    marks: map<string, nat>,
    entered: seq<string>,
    taken: seq<string>)

  /** The steps a handler takes on a key, from the state in which it got the mutex. */
  type Micro = (string, State) -> seq<State -> State>

  function ApplyAll(ops: seq<State -> State>, s: State): State {
    if ops == [] then s else ApplyAll(ops[1..], ops[0](s))
  }

  /** Left alone, the steps of a handler amount to what the handler does. */
  ghost predicate Implements(env: Env, feed: Feed, micro: Micro) {
    forall key, s :: ApplyAll(micro(key, s), s) == Sync(env, feed, s, key).0
  }

  datatype Move =
    | Add(key: string)
    | Take(worker: nat)
    | Lock(worker: nat)
    | Step(worker: nat)
    | Unlock(worker: nat)
    | Finish(worker: nat)

  /** Adding a key: at most one copy of it waits, and none while a worker has it. */
  function AddKey(m: Machine, key: string): Machine {
    var m1 := m.(added := m.added + [key], marks := m.marks[key := |m.history|]);
    if key in m.dirty then m1
    else
      var m2 := m1.(dirty := m.dirty + {key}, effective := m.effective + [key]);
      if key in m.processing then m2 else Enqueue(m2, key)
  }

  function Enqueue(m: Machine, key: string): Machine {
    m.(queue := m.queue + [key], entered := m.entered + [key])
  }

  function TakeKey(m: Machine, w: nat): Machine
    requires w < |m.workers| && m.queue != []
  {
    var key := m.queue[0];
    m.(queue := m.queue[1..], taken := m.taken + [key], processing := m.processing + {key}, dirty := m.dirty - {key},
    workers := m.workers[w := Waiting(key)])
  }

  /** Telling the queue that a key is done; if it was added meanwhile, it is queued again. */
  function FinishKey(m: Machine, w: nat): Machine
    requires w < |m.workers| && m.workers[w].Finishing?
  {
    var key := m.workers[w].key;
    var m1 := m.(processing := m.processing - {key}, workers := m.workers[w := Idle]);
    if key in m.dirty then Enqueue(m1, key) else m1
  }

  /** One move; a move that is not possible changes nothing. */
  function Next(micro: Micro, m: Machine, move: Move): Machine {
    match move
    case Add(key) => AddKey(m, key)
    case Take(w) =>
      if w < |m.workers| && m.workers[w].Idle? && m.queue != [] then TakeKey(m, w) else m
    case Lock(w) =>
      if w < |m.workers| && m.workers[w].Waiting? && m.lock == None
      then
        var key := m.workers[w].key;
        m.(lock := Some(w), workers := m.workers[w := Busy(key, micro(key, m.shared))], history := m.history + [key])
      else m
    case Step(w) =>
      if w < |m.workers| && m.workers[w].Busy? && m.workers[w].rest != []
      then
        var rest := m.workers[w].rest;
        m.(shared := rest[0](m.shared), workers := m.workers[w := Busy(m.workers[w].key, rest[1..])])
      else m
    case Unlock(w) =>
      if w < |m.workers| && m.workers[w].Busy? && m.workers[w].rest == []
      then m.(lock := None, workers := m.workers[w := Finishing(m.workers[w].key)])
      else m
    case Finish(w) =>
      if w < |m.workers| && m.workers[w].Finishing? then FinishKey(m, w) else m
  }

  function Moves(micro: Micro, m: Machine, moves: seq<Move>): Machine {
    if moves == [] then m else Next(micro, Moves(micro, m, Init(moves)), Last(moves))
  }

  ghost function Initial(n: nat, s: State): Machine {
    Machine([], {}, {}, seq(n, _ => Idle), None, s, [], [], [], map[], [], [])
  }

  /** The keys handled one by one. */
  function InOrder(env: Env, feed: Feed, s: State, keys: seq<string>): State {
    if keys == [] then s else Sync(env, feed, InOrder(env, feed, s, Init(keys)), Last(keys)).0
  }

  // ---------- The mutex ----------

  /** Only the holder of the mutex is inside a handler. */
  ghost predicate Exclusive(m: Machine) {
    && (forall w: nat :: w < |m.workers| ==> (m.workers[w].Busy? <==> m.lock == Some(w)))
    && (m.lock.Some? ==> m.lock.value < |m.workers|)
  }

  /** The shared state, with the holder's remaining steps done, is that of the one-by-one run. */
  ghost predicate Ordered(env: Env, feed: Feed, s: State, m: Machine)
    requires Exclusive(m)
  {
    InOrder(env, feed, s, m.history) ==
    if m.lock.Some? then ApplyAll(m.workers[m.lock.value].rest, m.shared) else m.shared
  }

  lemma NextIsExclusive(micro: Micro, m: Machine, move: Move)
    requires Exclusive(m)
    ensures Exclusive(Next(micro, m, move))
  {
  }

  lemma LockKeepsOrder(env: Env, feed: Feed, micro: Micro, s: State, m: Machine, w: nat)
    requires Implements(env, feed, micro) && Exclusive(m) && Ordered(env, feed, s, m)
    requires w < |m.workers| && m.workers[w].Waiting? && m.lock == None
    ensures Exclusive(Next(micro, m, Lock(w))) && Ordered(env, feed, s, Next(micro, m, Lock(w)))
  {
    hide Sync, ApplyAll;
    NextIsExclusive(micro, m, Lock(w));
    var key := m.workers[w].key;
    assert Init(m.history + [key]) == m.history && Last(m.history + [key]) == key;
    assert ApplyAll(micro(key, m.shared), m.shared) == Sync(env, feed, m.shared, key).0;
  }

  lemma StepKeepsOrder(env: Env, feed: Feed, micro: Micro, s: State, m: Machine, w: nat)
    requires Exclusive(m) && Ordered(env, feed, s, m)
    requires w < |m.workers| && m.workers[w].Busy? && m.workers[w].rest != []
    ensures Exclusive(Next(micro, m, Step(w))) && Ordered(env, feed, s, Next(micro, m, Step(w)))
  {
    hide InOrder;
    NextIsExclusive(micro, m, Step(w));
  }

  lemma UnlockKeepsOrder(env: Env, feed: Feed, micro: Micro, s: State, m: Machine, w: nat)
    requires Exclusive(m) && Ordered(env, feed, s, m)
    requires w < |m.workers| && m.workers[w].Busy? && m.workers[w].rest == []
    ensures Exclusive(Next(micro, m, Unlock(w))) && Ordered(env, feed, s, Next(micro, m, Unlock(w)))
  {
    hide InOrder;
    NextIsExclusive(micro, m, Unlock(w));
  }

  lemma QueueKeepsOrder(env: Env, feed: Feed, micro: Micro, s: State, m: Machine, move: Move)
    requires Exclusive(m) && Ordered(env, feed, s, m) && (move.Add? || move.Take? || move.Finish?)
    ensures Exclusive(Next(micro, m, move)) && Ordered(env, feed, s, Next(micro, m, move))
  {
    hide InOrder, ApplyAll;
    NextIsExclusive(micro, m, move);
  }

  lemma NextKeepsOrder(env: Env, feed: Feed, micro: Micro, s: State, m: Machine, move: Move)
    requires Implements(env, feed, micro) && Exclusive(m) && Ordered(env, feed, s, m)
    ensures Exclusive(Next(micro, m, move)) && Ordered(env, feed, s, Next(micro, m, move))
  {
    hide Sync, InOrder, ApplyAll, Implements;
    match move
    case Add(_) => QueueKeepsOrder(env, feed, micro, s, m, move);
    case Take(_) => QueueKeepsOrder(env, feed, micro, s, m, move);
    case Finish(_) => QueueKeepsOrder(env, feed, micro, s, m, move);
    case Lock(w) =>
      if w < |m.workers| && m.workers[w].Waiting? && m.lock == None {
        LockKeepsOrder(env, feed, micro, s, m, w);
      }
    case Step(w) =>
      if w < |m.workers| && m.workers[w].Busy? && m.workers[w].rest != [] {
        StepKeepsOrder(env, feed, micro, s, m, w);
      }
    case Unlock(w) =>
      if w < |m.workers| && m.workers[w].Busy? && m.workers[w].rest == [] {
        UnlockKeepsOrder(env, feed, micro, s, m, w);
      }
  }

  // ---------- The queue ----------

  ghost predicate Has(m: Machine, key: string) {
    exists w :: 0 <= w < |m.workers| && !m.workers[w].Idle? && m.workers[w].key == key
  }

  /** A key waits in the queue iff it is dirty and no worker has it; no two workers ever have the same key. */
  ghost predicate QueueOk(m: Machine) {
    && NoDup(m.queue)
    && (forall key :: key in m.queue <==> key in m.dirty && key !in m.processing)
    && (forall key :: key in m.processing <==> Has(m, key))
    && forall v, w :: 0 <= v < w < |m.workers| && !m.workers[v].Idle? && !m.workers[w].Idle? ==>
         m.workers[v].key != m.workers[w].key
  }

  lemma SameKeysKeepQueue(m: Machine, m': Machine)
    requires QueueOk(m) && m'.queue == m.queue && m'.dirty == m.dirty && m'.processing == m.processing
    requires |m'.workers| == |m.workers|
    requires forall w :: 0 <= w < |m.workers| ==>
               (m'.workers[w].Idle? <==> m.workers[w].Idle?) &&
                 (!m.workers[w].Idle? ==> m'.workers[w].key == m.workers[w].key)
    ensures QueueOk(m')
  {
    forall key ensures Has(m', key) <==> Has(m, key) {
      if Has(m, key) {
        var w :| 0 <= w < |m.workers| && !m.workers[w].Idle? && m.workers[w].key == key;
        assert m'.workers[w].key == key;
      }
      if Has(m', key) {
        var w :| 0 <= w < |m'.workers| && !m'.workers[w].Idle? && m'.workers[w].key == key;
        assert m.workers[w].key == key;
      }
    }
  }

  lemma AddKeepsQueue(m: Machine, key: string)
    requires QueueOk(m)
    ensures QueueOk(AddKey(m, key))
  {
    var m' := AddKey(m, key);
    assert forall k :: Has(m', k) <==> Has(m, k);
  }

  lemma TakeKeepsQueue(m: Machine, w: nat)
    requires QueueOk(m) && w < |m.workers| && m.workers[w].Idle? && m.queue != []
    ensures QueueOk(TakeKey(m, w))
  {
    var m', taken := TakeKey(m, w), m.queue[0];
    assert taken in m.queue && taken !in m.processing;
    assert m.queue == [taken] + m.queue[1..];
    forall key ensures Has(m', key) <==> Has(m, key) || key == taken {
      if Has(m, key) {
        var v :| 0 <= v < |m.workers| && !m.workers[v].Idle? && m.workers[v].key == key;
        assert m'.workers[v] == m.workers[v];
      }
      assert m'.workers[w].key == taken;
    }
  }

  lemma FinishKeepsQueue(m: Machine, w: nat)
    requires QueueOk(m) && w < |m.workers| && m.workers[w].Finishing?
    ensures QueueOk(FinishKey(m, w))
  {
    var m', done := FinishKey(m, w), m.workers[w].key;
    assert Has(m, done);
    forall key ensures Has(m', key) <==> Has(m, key) && key != done {
      if Has(m, key) && key != done {
        var v :| 0 <= v < |m.workers| && !m.workers[v].Idle? && m.workers[v].key == key;
        assert m'.workers[v] == m.workers[v];
      }
    }
  }

  lemma NextKeepsQueue(micro: Micro, m: Machine, move: Move)
    requires QueueOk(m)
    ensures QueueOk(Next(micro, m, move))
  {
    hide QueueOk, AddKey, TakeKey, FinishKey;
    match move
    case Add(key) => AddKeepsQueue(m, key);
    case Take(w) =>
      if w < |m.workers| && m.workers[w].Idle? && m.queue != [] { TakeKeepsQueue(m, w); }
    case Finish(w) =>
      if w < |m.workers| && m.workers[w].Finishing? { FinishKeepsQueue(m, w); }
    case Lock(_) => SameKeysKeepQueue(m, Next(micro, m, move));
    case Step(_) => SameKeysKeepQueue(m, Next(micro, m, move));
    case Unlock(_) => SameKeysKeepQueue(m, Next(micro, m, move));
  }

  /** Keys leave the queue in the order in which they came into it. */
  ghost predicate FirstInFirstOut(m: Machine) {
    m.entered == m.taken + m.queue
  }

  lemma NextIsFirstInFirstOut(micro: Micro, m: Machine, move: Move)
    requires FirstInFirstOut(m)
    ensures FirstInFirstOut(Next(micro, m, move))
  {
    if m.queue != [] { assert m.queue == [m.queue[0]] + m.queue[1..]; }
  }

  // ---------- No key is forgotten ----------

  /** The key was handled after the history had length `n`. */
  ghost predicate HandledSince(history: seq<string>, n: nat, key: string) {
    exists i :: n <= i < |history| && history[i] == key
  }

  ghost predicate Awaited(m: Machine, key: string) {
    exists w :: 0 <= w < |m.workers| && m.workers[w] == Waiting(key)
  }

  /** Every added key has been handled since it was last added, or will be: it is dirty, or a worker waits with it. */
  ghost predicate Remembered(m: Machine) {
    && (forall key :: key in m.added <==> key in m.marks)
    && forall key :: key in m.marks ==>
         m.marks[key] <= |m.history| && (HandledSince(m.history, m.marks[key], key) || key in m.dirty ||
                                         Awaited(m, key))
  }

  lemma NextRemembersKey(micro: Micro, m: Machine, move: Move, key: string)
    requires Remembered(m) && QueueOk(m) && key in Next(micro, m, move).marks
    ensures var m' := Next(micro, m, move);
            m'.marks[key] <= |m'.history| &&
              (HandledSince(m'.history, m'.marks[key], key) || key in m'.dirty || Awaited(m', key))
  {
    hide NoDup, Has;
    var m' := Next(micro, m, move);
    if !(move.Add? && move.key == key) {
      assert key in m.marks && m'.marks[key] == m.marks[key];
      if HandledSince(m.history, m.marks[key], key) {
        var i :| m.marks[key] <= i < |m.history| && m.history[i] == key;
        assert m'.history[i] == key;
      } else if key in m.dirty {
        if key !in m'.dirty { assert m'.workers[move.worker] == Waiting(key); }
      } else {
        var w :| 0 <= w < |m.workers| && m.workers[w] == Waiting(key);
        if m'.workers[w] != Waiting(key) {
          assert m'.history[|m.history|] == key;
        }
      }
    }
  }

  lemma NextRemembers(micro: Micro, m: Machine, move: Move)
    requires Remembered(m) && QueueOk(m)
    ensures Remembered(Next(micro, m, move))
  {
    hide QueueOk, HandledSince, Awaited;
    var m' := Next(micro, m, move);
    forall key | key in m'.marks
      ensures m'.marks[key] <= |m'.history|
      ensures HandledSince(m'.history, m'.marks[key], key) || key in m'.dirty || Awaited(m', key)
    {
      NextRemembersKey(micro, m, move, key);
    }
  }

  // ---------- How often a key is handled ----------

  /** How often a key occurs. */
  function Times(keys: seq<string>, key: string): nat {
    multiset(keys)[key]
  }

  lemma TimesFacts(keys: seq<string>, x: string, key: string)
    ensures Times(keys + [x], key) == Times(keys, key) + if x == key then 1 else 0
  {
  }

  function Holds(worker: Worker, key: string): nat {
    if worker == Waiting(key) then 1 else 0
  }

  /** How many workers hold a key without having the mutex yet. */
  function Held(workers: seq<Worker>, key: string): nat {
    if workers == [] then 0 else Held(Init(workers), key) + Holds(Last(workers), key)
  }

  /** How often the key has been handled, or is going to be. */
  function Due(m: Machine, key: string): nat {
    Times(m.history, key) + Held(m.workers, key) + if key in m.dirty then 1 else 0
  }

  /** Each effective addition of a key accounts for one handling of it. */
  ghost predicate Counted(m: Machine) {
    forall key :: Due(m, key) == Times(m.effective, key)
  }

  lemma {:induction false} HeldUpdate(workers: seq<Worker>, w: nat, x: Worker, key: string)
    requires w < |workers|
    ensures Held(workers[w := x], key) + Holds(workers[w], key) == Held(workers, key) + Holds(x, key)
  {
    hide Holds;
    if w == |workers| - 1 {
      assert Init(workers[w := x]) == Init(workers);
    } else {
      HeldUpdate(Init(workers), w, x, key);
      assert Init(workers[w := x]) == Init(workers)[w := x];
    }
  }

  lemma {:induction false} HeldIdle(workers: seq<Worker>, key: string)
    requires forall w :: 0 <= w < |workers| ==> workers[w].Idle?
    ensures Held(workers, key) == 0
  {
    if workers != [] { HeldIdle(Init(workers), key); }
  }

  lemma NextCountsKey(micro: Micro, m: Machine, move: Move, key: string)
    requires Counted(m) && QueueOk(m)
    ensures Due(Next(micro, m, move), key) == Times(Next(micro, m, move).effective, key)
  {
    hide Held, Times, NoDup, Has;
    assert Due(m, key) == Times(m.effective, key);
    match move
    case Add(k) => TimesFacts(m.effective, k, key);
    case Take(w) =>
      if w < |m.workers| && m.workers[w].Idle? && m.queue != [] {
        assert m.queue[0] in m.queue;
        HeldUpdate(m.workers, w, Waiting(m.queue[0]), key);
      }
    case Lock(w) =>
      if w < |m.workers| && m.workers[w].Waiting? && m.lock == None {
        HeldUpdate(m.workers, w, Busy(m.workers[w].key, micro(m.workers[w].key, m.shared)), key);
        TimesFacts(m.history, m.workers[w].key, key);
      }
    case Step(w) =>
      if w < |m.workers| && m.workers[w].Busy? && m.workers[w].rest != [] {
        HeldUpdate(m.workers, w, Busy(m.workers[w].key, m.workers[w].rest[1..]), key);
      }
    case Unlock(w) =>
      if w < |m.workers| && m.workers[w].Busy? && m.workers[w].rest == [] {
        HeldUpdate(m.workers, w, Finishing(m.workers[w].key), key);
      }
    case Finish(w) =>
      if w < |m.workers| && m.workers[w].Finishing? {
        HeldUpdate(m.workers, w, Idle, key);
      }
  }

  lemma NextCounts(micro: Micro, m: Machine, move: Move)
    requires Counted(m) && QueueOk(m)
    ensures Counted(Next(micro, m, move))
  {
    hide Next, Due, QueueOk;
    var m' := Next(micro, m, move);
    forall key ensures Due(m', key) == Times(m'.effective, key) { NextCountsKey(micro, m, move, key); }
  }

  /** No addition of the key among the moves finds it dirty, that is, still to be taken. */
  ghost predicate NeverDropped(micro: Micro, m: Machine, moves: seq<Move>, key: string) {
    forall i :: 0 <= i < |moves| && moves[i] == Add(key) ==> key !in Moves(micro, m, moves[..i]).dirty
  }

  lemma NeverDroppedSnoc(micro: Micro, m: Machine, moves: seq<Move>, key: string)
    requires moves != []
    ensures NeverDropped(micro, m, moves, key) <==>
            (NeverDropped(micro, m, Init(moves), key) &&
             (Last(moves) == Add(key) ==> key !in Moves(micro, m, Init(moves)).dirty))
  {
    hide Moves;
    var n := |moves| - 1;
    assert moves[n] == Last(moves) && moves[..n] == Init(moves);
    assert forall i :: 0 <= i < n ==> Init(moves)[i] == moves[i] && Init(moves)[..i] == moves[..i];
  }

  /** All additions of a key are effective iff none of them finds it dirty. */
  lemma {:induction false} EffectiveIffNeverDropped(micro: Micro, m: Machine, moves: seq<Move>, key: string)
    requires m.added == m.effective == []
    ensures var u := Moves(micro, m, moves);
            && Times(u.effective, key) <= Times(u.added, key)
            && (Times(u.effective, key) == Times(u.added, key) <==> NeverDropped(micro, m, moves, key))
  {
    hide Times, NeverDropped;
    if moves == [] {
      NothingDropped(micro, m, key);
    } else {
      EffectiveIffNeverDropped(micro, m, Init(moves), key);
      NeverDroppedSnoc(micro, m, moves, key);
      var u := Moves(micro, m, Init(moves));
      if Last(moves).Add? {
        TimesFacts(u.added, Last(moves).key, key);
        TimesFacts(u.effective, Last(moves).key, key);
      }
    }
  }

  lemma NothingDropped(micro: Micro, m: Machine, key: string)
    ensures NeverDropped(micro, m, [], key)
  {
  }

  // ---------- Every interleaving ----------

  ghost predicate Serial(env: Env, feed: Feed, s: State, m: Machine) {
    Exclusive(m) && Ordered(env, feed, s, m) && QueueOk(m) && FirstInFirstOut(m) && Remembered(m) && Counted(m)
  }

  lemma InitialIsSerial(env: Env, feed: Feed, n: nat, s: State)
    ensures Serial(env, feed, s, Initial(n, s))
  {
    forall key ensures Held(Initial(n, s).workers, key) == 0 { HeldIdle(Initial(n, s).workers, key); }
  }

  lemma {:induction false} EveryInterleavingIsSerial(env: Env, feed: Feed, micro: Micro, n: nat, s: State,
                                                     moves: seq<Move>)
    requires Implements(env, feed, micro)
    ensures Serial(env, feed, s, Moves(micro, Initial(n, s), moves))
  {
    hide Sync, Next, Ordered, QueueOk, FirstInFirstOut, Remembered, Counted, Implements;
    if moves == [] {
      InitialIsSerial(env, feed, n, s);
    } else {
      EveryInterleavingIsSerial(env, feed, micro, n, s, Init(moves));
      var m, move := Moves(micro, Initial(n, s), Init(moves)), Last(moves);
      NextKeepsOrder(env, feed, micro, s, m, move);
      NextKeepsQueue(micro, m, move);
      NextIsFirstInFirstOut(micro, m, move);
      NextRemembers(micro, m, move);
      NextCounts(micro, m, move);
    }
  }

  /** The keys added are those of the `Add` moves. */
  lemma {:induction false} AddedByMoves(micro: Micro, m: Machine, moves: seq<Move>, key: string)
    requires key in Moves(micro, m, moves).added && key !in m.added
    ensures Add(key) in moves
  {
    if key in Moves(micro, m, Init(moves)).added {
      AddedByMoves(micro, m, Init(moves), key);
    } else {
      assert Last(moves) == Add(key);
    }
  }

  lemma HandledIsAdded(m: Machine, i: nat)
    requires Counted(m) && i < |m.history|
    requires forall key :: Times(m.effective, key) <= Times(m.added, key)
    ensures m.history[i] in m.added
  {
    hide Held;
    var key := m.history[i];
    assert key in multiset(m.history);
    assert Due(m, key) == Times(m.effective, key);
    assert Times(m.added, key) > 0;
  }

  lemma {:induction false} InOrderSafe(env: Env, feed: Feed, s: State, keys: seq<string>, h: Hyp)
    requires Safe(s.table, h) && FixedSubnets(env, feed, h)
    requires forall i :: 0 <= i < |keys| ==> KeyOk(env, h, keys[i])
    ensures Safe(InOrder(env, feed, s, keys).table, h)
  {
    hide Safe, FixedSubnets, KeyOk, Sync;
    if keys != [] {
      InOrderSafe(env, feed, s, Init(keys), h);
      SyncSafe(env, feed, InOrder(env, feed, s, Init(keys)), Last(keys), h);
    }
  }

  ghost predicate AtRest(m: Machine) {
    m.queue == [] && forall w :: 0 <= w < |m.workers| ==> m.workers[w].Idle?
  }

  lemma RestedIsHandled(m: Machine, key: string)
    requires QueueOk(m) && Remembered(m) && AtRest(m) && key in m.added
    ensures HandledSince(m.history, m.marks[key], key)
  {
    hide HandledSince;
    assert !Has(m, key) && !Awaited(m, key);
    assert key !in m.queue;
  }

  lemma RestedIsCounted(m: Machine, key: string)
    requires QueueOk(m) && Counted(m) && AtRest(m)
    ensures Times(m.history, key) == Times(m.effective, key)
  {
    hide Times, Held;
    HeldIdle(m.workers, key);
    assert Due(m, key) == Times(m.effective, key);
    assert !Has(m, key) && key !in m.queue;
  }

  /**
    The account of one key: it is never handled more often than it was added;
    and once everything has come to rest it has been handled since it was added
    last, and exactly as often as it was added iff `neverDropped`.
   */
  ghost predicate Accounted(m: Machine, key: string, neverDropped: bool) {
    && Times(m.history, key) <= Times(m.added, key)
    && (AtRest(m) ==>
          && m.lock == None
          && (key in m.added ==> key in m.marks && HandledSince(m.history, m.marks[key], key))
          && (Times(m.history, key) == Times(m.added, key) <==> neverDropped))
  }

  /** Every key is accounted for, whatever the handlers do: only additions that find their key dirty are dropped. */
  lemma EveryKeyIsHandled(env: Env, feed: Feed, micro: Micro, n: nat, s: State, moves: seq<Move>, key: string)
    requires Implements(env, feed, micro)
    ensures Accounted(Moves(micro, Initial(n, s), moves), key, NeverDropped(micro, Initial(n, s), moves, key))
  {
    hide Sync, Next, InOrder, QueueOk, Remembered, Times, Held, HandledSince, Implements, NeverDropped;
    EveryInterleavingIsSerial(env, feed, micro, n, s, moves);
    EffectiveIffNeverDropped(micro, Initial(n, s), moves, key);
    var m := Moves(micro, Initial(n, s), moves);
    assert Due(m, key) == Times(m.effective, key);
    if AtRest(m) {
      RestedIsCounted(m, key);
      if key in m.added {
        AddedIsMarked(m, key);
        RestedIsHandled(m, key);
      }
    }
  }

  /**
    Serialisation.  However many workers there are and however their steps
    interleave: whenever the mutex is free, the table is the one that the keys
    handled so far produce one by one, in the order the mutex was taken, and it
    satisfies the invariant.  No key is handled more often than it was added,
    and at rest each has been handled since it was added last, and as often as
    it was added iff no addition found it dirty.
   */
  lemma WorkersSerialise(env: Env, feed: Feed, micro: Micro, n: nat, s: State, moves: seq<Move>, h: Hyp)
    requires Implements(env, feed, micro) && Safe(s.table, h) && FixedSubnets(env, feed, h)
    requires forall i :: 0 <= i < |moves| && moves[i].Add? ==> KeyOk(env, h, moves[i].key)
    ensures var m := Moves(micro, Initial(n, s), moves);
            && (m.lock == None ==> m.shared == InOrder(env, feed, s, m.history) && Safe(m.shared.table, h))
            && forall key :: Accounted(m, key, NeverDropped(micro, Initial(n, s), moves, key))
  {
    hide Safe, FixedSubnets, KeyOk, Sync, Next, InOrder, QueueOk;
    hide Remembered, Times, Due, Implements, NeverDropped, Accounted;
    EveryInterleavingIsSerial(env, feed, micro, n, s, moves);
    var m := Moves(micro, Initial(n, s), moves);
    forall key ensures Times(m.effective, key) <= Times(m.added, key) {
      EffectiveIffNeverDropped(micro, Initial(n, s), moves, key);
    }
    forall i | 0 <= i < |m.history| ensures KeyOk(env, h, m.history[i]) {
      HandledIsAdded(m, i);
      AddedByMoves(micro, Initial(n, s), moves, m.history[i]);
    }
    InOrderSafe(env, feed, s, m.history, h);
    forall key ensures Accounted(m, key, NeverDropped(micro, Initial(n, s), moves, key)) {
      EveryKeyIsHandled(env, feed, micro, n, s, moves, key);
    }
  }

  lemma AddedIsMarked(m: Machine, key: string)
    requires Remembered(m) && key in m.added
    ensures key in m.marks
  {
  }

  /**
    Additions are not counted: a key that is added again while it waits is
    handled once, and before a key that was added in between.
   */
  lemma RepeatedAddCollapses(micro: Micro, n: nat, s: State, a: string, b: string)
    requires a != b
    ensures var m := Moves(micro, Initial(n, s), [Add(a), Add(b), Add(a)]);
            m.queue == [a, b] && Times(m.added, a) == 2
  {
    var m0 := Initial(n, s);
    var x, y, z := Add(a), Add(b), Add(a);
    assert Init([x, y, z]) == [x, y] && Init([x, y]) == [x] && Init([x]) == [];
    assert Moves(micro, m0, [x]) == Next(micro, m0, x);
    assert Moves(micro, m0, [x, y]) == Next(micro, Next(micro, m0, x), y);
    assert Moves(micro, m0, [x, y, z]) == Next(micro, Next(micro, Next(micro, m0, x), y), z);
  }
}
