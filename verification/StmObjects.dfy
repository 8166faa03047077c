/** The objects of python/stm/stm_model.py: TVar, Transaction and atomically(), in the
  program's own imperative form, with other threads writing TVars in between.  Each method
  is proved against the functions that the interleaved model of module Stm is made of. */
module StmObjects {
  import opened Stm

  class TVar {
    const id: Id        // id(tvar)
    var value: int
    var version: nat

    constructor (id: Id, value: int)
      ensures this.id == id && this.value == value && version == 0
    {
      this.id, this.value, version := id, value, 0;
    }
  }

  /** _id_to_tvar: every TVar sits under its own id. */
  type Registry = map<Id, TVar>

  ghost predicate Registered(registry: Registry) {
    forall id :: id in registry ==> registry[id].id == id
  }

  ghost function Contents(registry: Registry): Memory
    reads registry.Values
  {
    map id | id in registry :: Cell(registry[id].value, registry[id].version)
  }

  // -------------------------------------------------------------- other threads

  /** What another thread does to the memory: one turn of the loop in its commit(). */
  datatype Store = Store(id: Id, value: int)

  ghost function StoredOne(mem: Memory, w: Store): Memory {
    if w.id in mem then mem[w.id := Cell(w.value, mem[w.id].version + 1)] else mem
  }

  ghost function Stored(mem: Memory, stores: seq<Store>): Memory
    decreases |stores|
  {
    if stores == [] then mem else Stored(StoredOne(mem, stores[0]), stores[1..])
  }

  function Flat(parts: seq<seq<Store>>): seq<Store> {
    if parts == [] then [] else parts[0] + Flat(parts[1..])
  }

  lemma {:induction false} StoredAppend(mem: Memory, a: seq<Store>, b: seq<Store>)
    ensures Stored(mem, a + b) == Stored(Stored(mem, a), b)
    decreases |a|
  {
    if a == [] {
      assert a + b == b;
    } else {
      assert (a + b)[1..] == a[1..] + b;
      StoredAppend(StoredOne(mem, a[0]), a[1..], b);
    }
  }

  lemma StoredParts(mem: Memory, parts: seq<seq<Store>>)
    ensures Stored(mem, Flat([])) == Stored(mem, []) == mem
    ensures parts != [] ==> Stored(mem, Flat(parts)) == Stored(Stored(mem, parts[0]), Flat(parts[1..]))
  {
    if parts != [] { StoredAppend(mem, parts[0], Flat(parts[1..])); }
  }

  ghost predicate WrittenIn(stores: seq<Store>, id: Id) {
    exists w :: w in stores && w.id == id
  }

  /** Versions tell exactly which TVars have been stored into. */
  ghost predicate Later(mem: Memory, mem': Memory) {
    && mem'.Keys == mem.Keys
    && forall id :: id in mem ==> mem[id] == mem'[id] || mem[id].version < mem'[id].version
  }

  lemma {:induction false} StoredIsLater(mem: Memory, stores: seq<Store>)
    ensures Later(mem, Stored(mem, stores))
    ensures forall id :: id in mem ==>
      (mem[id].version < Stored(mem, stores)[id].version <==> WrittenIn(stores, id))
    decreases |stores|
  {
    if stores != [] {
      StoredIsLater(StoredOne(mem, stores[0]), stores[1..]);
      forall id ensures WrittenIn(stores, id) <==> stores[0].id == id || WrittenIn(stores[1..], id) {
        if WrittenIn(stores, id) {
          var w :| w in stores && w.id == id;
          assert w == stores[0] || w in stores[1..];
        }
      }
    }
  }

  /** Other threads at work. */
  method Interfere(registry: Registry, stores: seq<Store>)
    requires Registered(registry)
    modifies registry.Values
    ensures Contents(registry) == Stored(old(Contents(registry)), stores)
  {
    var i := 0;
    while i < |stores|
      invariant i <= |stores|
      invariant Stored(Contents(registry), stores[i..]) == Stored(old(Contents(registry)), stores)
    {
      var w := stores[i];
      ghost var mem := Contents(registry);
      if w.id in registry {
        var tvar := registry[w.id];
        tvar.value := w.value;
        tvar.version := tvar.version + 1;
      }
      assert Contents(registry) == StoredOne(mem, w);
      assert stores[i..][1..] == stores[i + 1..];
      i := i + 1;
    }
  }

  // ------------------------------------------------------------ the transaction

  /** Where validate() has got to: the TVars but `todo` were current when they were checked;
      or, not `ok`, one was not, and never will be again. */
  ghost predicate Checked(readSet: Memory, mem0: Memory, mem: Memory, todo: set<Id>, ok: bool) {
    && Later(mem0, mem)
    && (ok && mem == mem0 ==> AllUnchanged(mem, readSet, readSet.Keys - todo))
    && (!ok && mem == mem0 ==> !AllUnchanged(mem, readSet, readSet.Keys))
    && (!ok && ReadsOk(readSet, mem0) ==> HasStale(readSet, mem))
  }

  ghost predicate HasStale(readSet: Memory, mem: Memory) {
    exists id :: id in readSet && id in mem && readSet[id].version < mem[id].version
  }

  lemma ChecksStart(readSet: Memory, mem: Memory)
    ensures Checked(readSet, mem, mem, readSet.Keys, true)
  {
  }

  lemma NextCheck(readSet: Memory, mem0: Memory, mem: Memory, stores: seq<Store>, id: Id, todo: set<Id>, ok: bool)
    requires Checked(readSet, mem0, mem, todo, true) && id in readSet
    requires ok <==> Unchanged(Stored(mem, stores), readSet, id)
    ensures Checked(readSet, mem0, Stored(mem, stores), if ok then todo - {id} else todo, ok)
  {
    StoredIsLater(mem, stores);
  }

  lemma ChecksEnd(readSet: Memory, mem0: Memory, mem: Memory, stores: seq<Store>, todo: set<Id>, ok: bool)
    requires Checked(readSet, mem0, mem, todo, ok) && (ok ==> todo == {})
    ensures var mem' := Stored(mem, stores);
            && (mem' == mem == mem0 ==> (ok <==> AllUnchanged(mem', readSet, readSet.Keys)))
            && (ReadsOk(readSet, mem0) && !ok ==> !AllUnchanged(mem', readSet, readSet.Keys))
  {
    StoredIsLater(mem, stores);
    if ReadsOk(readSet, mem0) && !ok {
      var id :| id in readSet && id in mem && readSet[id].version < mem[id].version;
      assert !Unchanged(Stored(mem, stores), readSet, id);
    }
  }

  class Transaction {
    var readSet: Memory
    var writeSet: Values
    var shouldRetry: bool

    constructor ()
      ensures readSet == map[] && writeSet == map[] && !shouldRetry
    {
      readSet, writeSet, shouldRetry := map[], map[], false;
    }

    method ReadTVar(tvar: TVar) returns (v: int)
      modifies this`readSet
      ensures tvar.id in writeSet ==> v == writeSet[tvar.id] && readSet == old(readSet)
      ensures tvar.id !in writeSet ==>
                v == tvar.value && readSet == old(readSet)[tvar.id := Cell(tvar.value, tvar.version)]
    {
      if tvar.id in writeSet {
        return writeSet[tvar.id];
      }
      readSet := readSet[tvar.id := Cell(tvar.value, tvar.version)];
      v := tvar.value;
    }

    method WriteTVar(id: Id, value: int)
      modifies this`writeSet
      ensures writeSet == old(writeSet)[id := value]
    {
      writeSet := writeSet[id := value];
    }

    /** One check of validate(), after other threads have stored `during`. */
    method CheckTVar(registry: Registry, id: Id, during: seq<Store>) returns (ok: bool)
      requires Registered(registry) && id in readSet
      modifies registry.Values
      ensures Contents(registry) == Stored(old(Contents(registry)), during)
      ensures ok <==> Unchanged(Contents(registry), readSet, id)
    {
      Interfere(registry, during);
      ok := id in registry && registry[id].version == readSet[id].version;
    }

    /** Outside the commit lock other threads store `during[i]` before check number `i` (and
        the rest afterwards); inside it `during` is empty.  A refusal stays right. */
    method Validate(registry: Registry, during: seq<seq<Store>>) returns (ok: bool)
      requires Registered(registry)
      modifies registry.Values
      ensures Contents(registry) == Stored(old(Contents(registry)), Flat(during))
      ensures during == [] ==> (ok <==> AllUnchanged(Contents(registry), readSet, readSet.Keys))
      ensures ReadsOk(readSet, old(Contents(registry))) && !ok ==> !AllUnchanged(Contents(registry), readSet, readSet.Keys)
    {
      ghost var mem := Contents(registry);
      var todo, left := readSet.Keys, during;
      ok := true;
      StoredParts(mem, []);
      hide Stored, Flat, WrittenIn, Contents, Unchanged, AllUnchanged, ReadsOk, Later;
      ChecksStart(readSet, mem);
      while todo != {} && ok
        invariant todo <= readSet.Keys && |left| <= |during|
        invariant Stored(Contents(registry), Flat(left)) == Stored(mem, Flat(during))
        invariant during == [] ==> Contents(registry) == mem
        invariant Checked(readSet, mem, Contents(registry), todo, ok)
        decreases |todo|, ok
      {
        ghost var before, unchecked := Contents(registry), todo;
        StoredParts(before, left);
        var id :| id in todo;
        var stores := [];
        if left != [] { stores, left := left[0], left[1..]; }
        ok := CheckTVar(registry, id, stores);
        if ok { todo := todo - {id}; }
        NextCheck(readSet, mem, before, stores, id, unchecked, ok);
      }
      ghost var now := Contents(registry);
      Interfere(registry, Flat(left));
      ChecksEnd(readSet, mem, now, Flat(left), todo, ok);
    }

    /** One turn of the writing loop of commit(); not `ok` when another thread came between. */
    method CommitTVar(registry: Registry, id: Id) returns (ok: bool)
      requires Registered(registry) && id in writeSet
      modifies registry.Values
      ensures !ok <==> id in readSet && old(id in registry && !Unchanged(Contents(registry), readSet, id))
      ensures Contents(registry) ==
        if ok then PublishOne(old(Contents(registry)), writeSet, id) else old(Contents(registry))
    {
      if id in registry {
        var tvar := registry[id];
        if id in readSet && tvar.version != readSet[id].version {
          return false;
        }
        tvar.value := writeSet[id];
        tvar.version := tvar.version + 1;
      }
      return true;
    }

    /** commit(), entered after a validation that still stands: the "Concurrent modification
        detected" branch of the loop is dead. */
    method Commit(registry: Registry) returns (ok: bool)
      requires Registered(registry)
      modifies registry.Values
      ensures ok <==> old(AllUnchanged(Contents(registry), readSet, readSet.Keys))
      ensures Contents(registry) == if ok then Published(old(Contents(registry)), writeSet, {}) else old(Contents(registry))
    {
      ghost var base := Contents(registry);
      ok := Validate(registry, []);
      if !ok { return; }
      var todo := writeSet.Keys;
      while todo != {}
        invariant todo <= writeSet.Keys
        invariant Contents(registry) == Published(base, writeSet, todo)
        decreases |todo|
      {
        var id :| id in todo;
        PublishedNext(base, writeSet, todo, id);
        assert id in readSet ==> Unchanged(base, readSet, id);
        var fine := CommitTVar(registry, id);
        if !fine { assert false; }
        todo := todo - {id};
      }
    }
  }

  lemma PublishedNext(base: Memory, writeSet: Values, todo: set<Id>, id: Id)
    requires id in todo && todo <= writeSet.Keys
    ensures PublishOne(Published(base, writeSet, todo), writeSet, id) == Published(base, writeSet, todo - {id})
    ensures id in base ==> id in Published(base, writeSet, todo) && Published(base, writeSet, todo)[id] == base[id]
    ensures Published(base, writeSet, todo).Keys == base.Keys
  {
  }

  // ------------------------------------------------------ one run of a body

  /** How far an attempt has got: its view, its read set, the memory, and which of the TVars
      it has read have been stored into since it last read them. */
  datatype Progress = Progress(view: View, readSet: Memory, mem: Memory, dirty: set<Id>)

  ghost function Begin(mem: Memory): Progress {
    Progress(BLANK, map[], mem, {})
  }

  ghost function Disturbed(p: Progress, stores: seq<Store>): Progress {
    p.(mem := Stored(p.mem, stores), dirty := p.dirty + set id | id in p.readSet && WrittenIn(stores, id))
  }

  /** The body does its next operation. */
  ghost function Performed(body: Body, p: Progress): Progress {
    var op := body(p.view.seen);
    var p' := p.(view := Advance(p.view, op, Fetch(op, ValuesOf(p.mem))));
    if op.Read? && op.id !in p.view.writeSet && op.id in p.mem then
      p'.(readSet := p.readSet[op.id := p.mem[op.id]], dirty := p.dirty - {op.id})
    else p'
  }

  ghost predicate Ended(body: Body, v: View) {
    body(v.seen).Return? || body(v.seen).RaiseRetry?
  }

  /** The body runs to its end, other threads storing `env[i]` before its operation `i`. */
  ghost function Ran(body: Body, p: Progress, env: seq<seq<Store>>): Progress
    decreases |env|
  {
    if Ended(body, p.view) || env == [] then p
    else Ran(body, Performed(body, Disturbed(p, env[0])), env[1..])
  }

  /** `env` is long enough for that, and the TVars that are read were made by create_tvar. */
  ghost predicate Runs(body: Body, p: Progress, env: seq<seq<Store>>)
    decreases |env|
  {
    || Ended(body, p.view)
    || (env != [] && ReadsIn(body(p.view.seen), p.mem.Keys) && Runs(body, Performed(body, Disturbed(p, env[0])), env[1..]))
  }

  ghost predicate ReadsIn(op: Op, ids: set<Id>) {
    op.Read? ==> op.id in ids
  }

  ghost predicate ProgressOk(body: Body, p: Progress) {
    && ViewOk(body, p.view, p.readSet)
    && p.dirty <= p.readSet.Keys <= p.mem.Keys
    && forall id :: id in p.readSet ==>
         && (id in p.dirty ==> p.readSet[id].version < p.mem[id].version)
         && (id !in p.dirty ==> p.readSet[id] == p.mem[id])
  }

  lemma BeginOk(body: Body, mem: Memory)
    ensures ProgressOk(body, Begin(mem))
  {
    assert Feed(body, BLANK, []) == BLANK;
  }

  lemma DisturbedOk(body: Body, p: Progress, stores: seq<Store>)
    requires ProgressOk(body, p)
    ensures ProgressOk(body, Disturbed(p, stores))
  {
    StoredIsLater(p.mem, stores);
  }

  lemma PerformedOk(body: Body, p: Progress)
    requires ProgressOk(body, p) && ReadsIn(body(p.view.seen), p.mem.Keys)
    ensures ProgressOk(body, Performed(body, p))
  {
    var op := body(p.view.seen);
    var current := Fetch(op, ValuesOf(p.mem));
    hide Faithful, Reached, Latest;
    AdvanceIsFaithful(body, p.view, current);
    AdvanceIsReached(body, p.view, current);
    if op.Read? { LatestSnoc(p.view.trace, (op.id, current)); }
  }

  lemma {:induction false} RanOk(body: Body, p: Progress, env: seq<seq<Store>>)
    requires ProgressOk(body, p) && Runs(body, p, env)
    ensures ProgressOk(body, Ran(body, p, env)) && Ended(body, Ran(body, p, env).view)
    decreases |env|
  {
    if !Ended(body, p.view) {
      DisturbedOk(body, p, env[0]);
      StoredIsLater(p.mem, env[0]);
      PerformedOk(body, Disturbed(p, env[0]));
      RanOk(body, Performed(body, Disturbed(p, env[0])), env[1..]);
    }
  }

  /** The body itself stores nothing: the memory is the others' work. */
  lemma {:induction false} RanStoresNothing(body: Body, p: Progress, env: seq<seq<Store>>) returns (n: nat)
    ensures n <= |env| && Ran(body, p, env).mem == Stored(p.mem, Flat(env[..n]))
    decreases |env|
  {
    n := 0;
    if !Ended(body, p.view) && env != [] {
      var q := Performed(body, Disturbed(p, env[0]));
      var k := RanStoresNothing(body, q, env[1..]);
      n := k + 1;
      assert env[..n][0] == env[0] && env[..n][1..] == env[1..][..k];
      StoredAppend(p.mem, env[0], Flat(env[1..][..k]));
    }
  }

  ghost predicate Mirrors(txn: Transaction, p: Progress)
    reads txn
  {
    txn.readSet == p.readSet && txn.writeSet == p.view.writeSet && txn.shouldRetry == p.view.flagged
  }

  /** One operation of a body on its transaction; what it returns. */
  method Perform(txn: Transaction, body: Body, registry: Registry, op: Op, ghost p: Progress) returns (x: int)
    requires Registered(registry) && op == body(p.view.seen) && !Ended(body, p.view) && ReadsIn(op, registry.Keys)
    requires Mirrors(txn, p) && Contents(registry) == p.mem
    requires forall id :: id in registry ==> registry[id] as object != txn
    modifies txn
    ensures Mirrors(txn, Performed(body, p)) && Performed(body, p).view.seen == p.view.seen + [x]
    ensures Contents(registry) == p.mem
  {
    x := 0;
    match op {
      case Read(id) => x := txn.ReadTVar(registry[id]);
      case Write(id, value) => txn.WriteTVar(id, value);
      case FlagRetry => txn.shouldRetry := true;
    }
  }

  /** txn_func(txn): the body's operations, on TVars of the registry. */
  method Execute(txn: Transaction, body: Body, registry: Registry, env: seq<seq<Store>>) returns (raised: bool)
    requires Registered(registry) && Runs(body, Begin(Contents(registry)), env)
    requires txn.readSet == map[] && txn.writeSet == map[] && !txn.shouldRetry
    requires forall id :: id in registry ==> registry[id] as object != txn
    modifies txn, registry.Values
    ensures var p := Ran(body, Begin(old(Contents(registry))), env);
            && Mirrors(txn, p) && Contents(registry) == p.mem && raised == body(p.view.seen).RaiseRetry?
  {
    ghost var p := Begin(Contents(registry));
    ghost var end := Ran(body, p, env);
    var i, seen := 0, [];
    while true
      invariant i <= |env| && p.view.seen == seen
      invariant Runs(body, p, env[i..]) && Ran(body, p, env[i..]) == end
      invariant Mirrors(txn, p) && Contents(registry) == p.mem
      decreases |env| - i
    {
      var op := body(seen);
      if op.Return? || op.RaiseRetry? {
        return op.RaiseRetry?;
      }
      assert env[i..][0] == env[i] && env[i..][1..] == env[i + 1..];
      assert ReadsIn(op, registry.Keys);
      Interfere(registry, env[i]);
      var x := Perform(txn, body, registry, op, Disturbed(p, env[i]));
      p, seen := Performed(body, Disturbed(p, env[i])), seen + [x];
      i := i + 1;
    }
  }

  // ----------------------------------------------------------------- atomically

  /** What other threads store during one turn of the loop in atomically(): before the body's
      operations, before the checks of the first validate(), and until the lock is taken. */
  datatype Turn = Turn(ops: seq<seq<Store>>, checks: seq<seq<Store>>, waiting: seq<Store>)

  ghost function RanTurn(body: Body, mem: Memory, turn: Turn): Progress {
    Disturbed(Disturbed(Ran(body, Begin(mem), turn.ops), Flat(turn.checks)), turn.waiting)
  }

  /** The attempt wants to commit, and nothing it read was stored into after its last read. */
  ghost predicate Succeeds(body: Body, mem: Memory, turn: Turn) {
    Returned(body, RanTurn(body, mem, turn).view) && RanTurn(body, mem, turn).dirty == {}
  }

  lemma RanTurnOk(body: Body, mem: Memory, turn: Turn)
    requires Runs(body, Begin(mem), turn.ops)
    ensures ProgressOk(body, RanTurn(body, mem, turn)) && Ended(body, RanTurn(body, mem, turn).view)
  {
    BeginOk(body, mem);
    RanOk(body, Begin(mem), turn.ops);
    var p := Ran(body, Begin(mem), turn.ops);
    DisturbedOk(body, p, Flat(turn.checks));
    DisturbedOk(body, Disturbed(p, Flat(turn.checks)), turn.waiting);
  }

  /** validate() decides, by versions alone, whether something read has been stored into. */
  lemma ValidationTellsSuccess(body: Body, mem: Memory, turn: Turn)
    requires Runs(body, Begin(mem), turn.ops)
    requires Returned(body, RanTurn(body, mem, turn).view)
    ensures var p := RanTurn(body, mem, turn);
            AllUnchanged(p.mem, p.readSet, p.readSet.Keys) <==> Succeeds(body, mem, turn)
  {
    RanTurnOk(body, mem, turn);
    var p := RanTurn(body, mem, turn);
    assert forall id :: id in p.readSet ==> (Unchanged(p.mem, p.readSet, id) <==> id !in p.dirty);
  }

  /** The memories and the read set that the validations of a turn see: what the first one
      refuses the one under the lock would refuse. */
  lemma TurnMemories(body: Body, mem: Memory, turn: Turn)
    requires Runs(body, Begin(mem), turn.ops)
    ensures var r := Ran(body, Begin(mem), turn.ops); var p := RanTurn(body, mem, turn);
            && p.view == r.view && p.readSet == r.readSet && Ended(body, r.view)
            && p.mem == Stored(Stored(r.mem, Flat(turn.checks)), turn.waiting)
            && ReadsOk(r.readSet, r.mem)
            && (AllUnchanged(p.mem, p.readSet, p.readSet.Keys) ==>
                AllUnchanged(Stored(r.mem, Flat(turn.checks)), p.readSet, p.readSet.Keys))
  {
    var r := Ran(body, Begin(mem), turn.ops);
    var c := Disturbed(r, Flat(turn.checks));
    BeginOk(body, mem);
    RanOk(body, Begin(mem), turn.ops);
    DisturbedOk(body, r, Flat(turn.checks));
    StoredIsLater(c.mem, turn.waiting);
    hide Ran, Runs, Stored, ViewOk;
    var p := RanTurn(body, mem, turn);
    forall id | id in p.readSet && Unchanged(p.mem, p.readSet, id)
      ensures Unchanged(c.mem, p.readSet, id)
    {
    }
  }

  /** What a successful attempt saw, other threads storing at every turn, is what its body sees
      alone on the memory it commits to: exactly if its repeated reads agreed, and so always
      if the body never commits otherwise. */
  lemma SameViewAfter(body: Body, mem: Memory, turn: Turn)
    requires Runs(body, Begin(mem), turn.ops) && Succeeds(body, mem, turn)
    ensures var p := RanTurn(body, mem, turn); var v := p.view;
            && (Alone(body, ValuesOf(p.mem), |v.seen|) == v <==> Consistent(v.trace))
            && (CommitsConsistent(body) ==> Consistent(v.trace))
  {
    RanTurnOk(body, mem, turn);
    var p := RanTurn(body, mem, turn);
    SerialIffConsistent(body, p.view, ValuesOf(p.mem));
  }

  /** One turn of the loop in atomically(). */
  method Attempt(body: Body, registry: Registry, turn: Turn) returns (committed: bool)
    requires Registered(registry) && Runs(body, Begin(Contents(registry)), turn.ops)
    modifies registry.Values
    ensures committed <==> old(Succeeds(body, Contents(registry), turn))
    ensures var p := RanTurn(body, old(Contents(registry)), turn);
            Contents(registry) == if committed then Published(p.mem, p.view.writeSet, {}) else p.mem
  {
    ghost var mem := Contents(registry);
    ghost var p := RanTurn(body, mem, turn);
    TurnMemories(body, mem, turn);
    if Returned(body, p.view) { ValidationTellsSuccess(body, mem, turn); }
    hide Ran, Runs, RanTurn, Stored, Disturbed, ReadsOk, AllUnchanged, Unchanged, Published, Flat, ProgressOk, Later;
    var txn := new Transaction();
    var raised := Execute(txn, body, registry, turn.ops);
    if raised || txn.shouldRetry {
      Interfere(registry, Flat(turn.checks));
      Interfere(registry, turn.waiting);
      return false;
    }
    var ok := txn.Validate(registry, turn.checks);
    Interfere(registry, turn.waiting);
    if ok {
      ok := txn.Validate(registry, []);   // again, now under the commit lock
      if ok {
        committed := txn.Commit(registry);
        return;
      }
    }
    return false;
  }

  /** The memory after failed attempts: what the other threads have stored. */
  ghost function AfterTurns(body: Body, mem: Memory, turns: seq<Turn>): Memory {
    if turns == [] then mem
    else RanTurn(body, AfterTurns(body, mem, turns[..|turns| - 1]), turns[|turns| - 1]).mem
  }

  ghost predicate SucceedsAt(body: Body, mem: Memory, turns: seq<Turn>, i: nat)
    requires i < |turns|
  {
    Succeeds(body, AfterTurns(body, mem, turns[..i]), turns[i])
  }

  ghost predicate FailedBefore(body: Body, mem: Memory, turns: seq<Turn>, n: nat)
    requires n <= |turns|
  {
    forall i :: 0 <= i < n ==> !SucceedsAt(body, mem, turns, i)
  }

  /** Each attempt that is made runs to its end. */
  ghost predicate AllRun(body: Body, mem: Memory, turns: seq<Turn>) {
    forall i {:trigger FailedBefore(body, mem, turns, i)} :: 0 <= i < |turns| && FailedBefore(body, mem, turns, i) ==>
      Runs(body, Begin(AfterTurns(body, mem, turns[..i])), turns[i].ops)
  }

  /** The memory `mem` with a commit of `body` on it, whose attempt saw `v`. */
  ghost predicate CommitsOn(body: Body, v: View, mem: Memory, mem': Memory) {
    && Returned(body, v) && mem' == Published(mem, v.writeSet, {})
    && (Alone(body, ValuesOf(mem), |v.seen|) == v <==> Consistent(v.trace))
    && (CommitsConsistent(body) ==> Consistent(v.trace))
  }

  ghost function ViewAt(body: Body, mem: Memory, turns: seq<Turn>, i: nat): View
    requires i < |turns|
  {
    RanTurn(body, AfterTurns(body, mem, turns[..i]), turns[i]).view
  }

  lemma TurnOutcome(body: Body, mem0: Memory, turns: seq<Turn>, i: nat, mem': Memory)
    requires i < |turns| && Runs(body, Begin(AfterTurns(body, mem0, turns[..i])), turns[i].ops)
    requires var p := RanTurn(body, AfterTurns(body, mem0, turns[..i]), turns[i]);
             mem' == if SucceedsAt(body, mem0, turns, i) then Published(p.mem, p.view.writeSet, {}) else p.mem
    ensures var mem := AfterTurns(body, mem0, turns[..i + 1]);
            if SucceedsAt(body, mem0, turns, i) then CommitsOn(body, ViewAt(body, mem0, turns, i), mem, mem') else mem' == mem
  {
    assert turns[..i + 1][..i] == turns[..i];
    if SucceedsAt(body, mem0, turns, i) {
      SameViewAfter(body, AfterTurns(body, mem0, turns[..i]), turns[i]);
    }
  }

  /** `n` attempts have been made.  The first one that succeeded is the last.  Attempts that
      failed have left nothing; one that committed has done at once, on the memory as of its
      commit, what its view says. */
  ghost predicate Attempted(body: Body, mem0: Memory, turns: seq<Turn>, n: nat, committed: bool, mem': Memory) {
    n <= |turns| &&
    var mem := AfterTurns(body, mem0, turns[..n]);
    if committed then
      && n > 0 && FailedBefore(body, mem0, turns, n - 1) && SucceedsAt(body, mem0, turns, n - 1)
      && CommitsOn(body, ViewAt(body, mem0, turns, n - 1), mem, mem')
    else FailedBefore(body, mem0, turns, n) && mem' == mem
  }

  /** One more attempt after attempts that failed. */
  method AttemptNext(body: Body, registry: Registry, turns: seq<Turn>, i: nat, ghost mem0: Memory) returns (committed: bool)
    requires Registered(registry) && AllRun(body, mem0, turns)
    requires i < |turns| && Attempted(body, mem0, turns, i, false, Contents(registry))
    modifies registry.Values
    ensures Attempted(body, mem0, turns, i + 1, committed, Contents(registry))
  {
    committed := Attempt(body, registry, turns[i]);
    hide AfterTurns, Runs, CommitsOn, Published, Succeeds, Stored, Later;
    TurnOutcome(body, mem0, turns, i, Contents(registry));
  }

  /** atomically(body), other threads storing `turns[i]` during attempt `i`. */
  method Atomically(body: Body, registry: Registry, turns: seq<Turn>) returns (committed: bool, attempts: nat)
    requires Registered(registry) && AllRun(body, Contents(registry), turns)
    modifies registry.Values
    ensures Attempted(body, old(Contents(registry)), turns, attempts, committed, Contents(registry))
    ensures committed || attempts == |turns|
  {
    ghost var mem0 := Contents(registry);
    attempts, committed := 0, false;
    assert Attempted(body, mem0, turns, 0, false, mem0);
    hide Attempted, AllRun;
    while attempts < |turns| && !committed
      invariant attempts <= |turns| && Attempted(body, mem0, turns, attempts, committed, Contents(registry))
      decreases |turns| - attempts
    {
      committed := AttemptNext(body, registry, turns, attempts, mem0);
      attempts := attempts + 1;
    }
  }
}
