/** Store operations and reloads on several threads. An operation runs under the lock,
    one atomic step; a reload reads the file first and installs what it read under the
    lock later, with anything in between. */
module StoreInterleaving {
  import opened Wrappers
  import opened Store

  datatype Action = Operate(op: Op, fault: Fault) | Read(id: nat) | Install(id: nat)

  /** Memory, what the file loads to, and what each reload under way has read. `versions`
      lists what memory started with and every content saved since; `readAt` says which of
      them was the latest when a reload read. */
  datatype Machine = Machine(
    maps: Maps,
    saved: Option<Maps>,
    seen: map<nat, Maps>,
    readAt: map<nat, nat>,
    versions: seq<Maps>)

  function Start(m: Maps, saved: Option<Maps>): Machine {
    Machine(m, saved, map[], map[], [m])
  }

  function Step(s: Machine, a: Action): Machine {
    match a
    case Operate(op, fault) =>
      if Outcome(s.maps, op, fault).Ok? then
        var m := Changed(s.maps, op);
        s.(maps := m, saved := Some(m), versions := s.versions + [m])
      else s
    case Read(id) =>
      if s.saved.Some? && id !in s.seen && s.versions != [] then
        s.(seen := s.seen[id := s.saved.value], readAt := s.readAt[id := |s.versions| - 1])
      else s
    case Install(id) =>
      if id in s.seen then
        s.(maps := s.seen[id], seen := s.seen - {id}, readAt := s.readAt - {id})
      else s
  }

  function Run(s: Machine, actions: seq<Action>): Machine {
    if actions == [] then s else Step(Run(s, actions[..|actions| - 1]), actions[|actions| - 1])
  }

  /** What a fresh load finds; no file counts as an empty store. */
  function OnDisk(s: Machine): Maps {
    if s.saved.Some? then s.saved.value else EMPTY
  }

  predicate Sync(s: Machine) {
    s.maps == OnDisk(s)
  }

  // ----- the store runs as the machine

  lemma {:induction false} RunNext(s: Machine, actions: seq<Action>, i: nat)
    requires i < |actions|
    ensures Run(s, actions[..i + 1]) == Step(Run(s, actions[..i]), actions[i])
  {
    assert actions[..i + 1][..i] == actions[..i];
  }

  /** The store, and the reloads under way, hold what the machine holds. */
  ghost predicate Tracks(store: StoreSource, seen: map<nat, Maps>, s: Machine)
    reads store, store.disk
  {
    && store.Valid() && store.maps == s.maps && Loaded(store.disk.file) == s.saved
    && seen == s.seen && s.versions != []
    && (forall id :: id in seen ==> KeyedMaps(seen[id]))
  }

  method Act(store: StoreSource, seen: map<nat, Maps>, ghost s: Machine, a: Action) returns (after: map<nat, Maps>)
    requires Tracks(store, seen, s)
    modifies store, store.disk
    ensures Tracks(store, after, Step(s, a))
  {
    after := seen;
    match a
    case Operate(op, fault) =>
      var _ := store.Perform(op, fault);
    case Read(id) =>
      var loaded := store.ReadFile();
      if loaded.Some? && id !in seen {
        LoadedKeyed(store.disk.file);
        after := seen[id := loaded.value];
      }
    case Install(id) =>
      if id in seen {
        store.Install(seen[id]);
        after := seen - {id};
      }
  }

  method RunInterleaved(store: StoreSource, actions: seq<Action>)
    requires store.Valid() && store.Synced()
    modifies store, store.disk
    ensures store.Valid()
    ensures var s := Run(Start(old(store.maps), Loaded(old(store.disk.file))), actions);
            store.maps == s.maps && Loaded(store.disk.file) == s.saved
  {
    var seen: map<nat, Maps> := map[];
    ghost var start := Start(store.maps, Loaded(store.disk.file));
    ghost var s := start;
    for i := 0 to |actions|
      invariant s == Run(start, actions[..i]) && Tracks(store, seen, s)
    {
      RunNext(start, actions, i);
      seen := Act(store, seen, s, actions[i]);
      s := Step(s, actions[i]);
    }
    assert actions[..|actions|] == actions;
  }

  // ----- what every interleaving keeps

  /** A reload under way has read a version that was saved, and holds it unchanged. */
  ghost predicate ReadInv(s: Machine, id: nat) {
    id in s.seen ==>
      id in s.readAt && s.readAt[id] < |s.versions| && s.seen[id] == s.versions[s.readAt[id]]
  }

  ghost predicate Inv(s: Machine) {
    && s.versions != [] && s.versions[|s.versions| - 1] == OnDisk(s)
    && s.maps in s.versions
    && (forall v :: v in s.versions ==> KeyedMaps(v))
    && (forall id :: ReadInv(s, id))
    && (s.saved.None? ==> s.seen == map[])
  }

  lemma {:induction false} OperationKeeps(s: Machine, op: Op, fault: Fault)
    requires Inv(s)
    ensures Inv(Step(s, Operate(op, fault)))
  {
    var t := Step(s, Operate(op, fault));
    if Outcome(s.maps, op, fault).Ok? {
      ChangedKeyed(s.maps, op);
      assert t.versions[|s.versions|] == t.maps;
    }
    forall id ensures ReadInv(t, id) {
      assert ReadInv(s, id);
    }
  }

  lemma {:induction false} ReloadKeeps(s: Machine, id: nat)
    requires Inv(s)
    ensures Inv(Step(s, Read(id))) && Inv(Step(s, Install(id)))
  {
    var r, i := Step(s, Read(id)), Step(s, Install(id));
    forall k ensures ReadInv(r, k) {
      assert ReadInv(s, k);
    }
    forall k ensures ReadInv(i, k) {
      assert ReadInv(s, k);
    }
    assert ReadInv(s, id);
  }

  /** In every interleaving memory and every reload under way hold, whole, a content that
      was saved or that memory started with, and keys are entry names throughout. */
  lemma {:induction false} MemoryWasSaved(m: Maps, saved: Option<Maps>, actions: seq<Action>)
    requires KeyedMaps(m) && (saved == Some(m) || (saved.None? && m == EMPTY))
    ensures Inv(Run(Start(m, saved), actions)) && KeyedMaps(Run(Start(m, saved), actions).maps)
  {
    if actions != [] {
      var front, a := actions[..|actions| - 1], actions[|actions| - 1];
      MemoryWasSaved(m, saved, front);
      match a
      case Operate(op, fault) => OperationKeeps(Run(Start(m, saved), front), op, fault);
      case Read(id) => ReloadKeeps(Run(Start(m, saved), front), id);
      case Install(id) => ReloadKeeps(Run(Start(m, saved), front), id);
    }
  }

  // ----- when memory agrees with the file

  /** After an installation memory agrees with the file exactly when the file still loads
      to what that reload read; a successful operation brings the two together again, and
      nothing else changes whether they agree. */
  lemma {:induction false} SyncExact(m: Maps, saved: Option<Maps>, actions: seq<Action>, a: Action)
    requires KeyedMaps(m) && (saved == Some(m) || (saved.None? && m == EMPTY))
    ensures var s := Run(Start(m, saved), actions);
            Sync(Step(s, a)) <==>
              match a
              case Operate(op, fault) => Outcome(s.maps, op, fault).Ok? || Sync(s)
              case Read(_) => Sync(s)
              case Install(id) => if id in s.seen then s.saved == Some(s.seen[id]) else Sync(s)
  {
    MemoryWasSaved(m, saved, actions);
  }

  /** No operation has succeeded since the reload read. */
  predicate Current(s: Machine, id: nat) {
    id in s.readAt && s.readAt[id] + 1 == |s.versions|
  }

  /** Every installation of the run is of a reload that no operation has overtaken. */
  predicate NoneOvertaken(s: Machine, actions: seq<Action>) {
    actions == [] ||
    (var front, a := actions[..|actions| - 1], actions[|actions| - 1];
     && NoneOvertaken(s, front)
     && (a.Install? && a.id in Run(s, front).seen ==> Current(Run(s, front), a.id)))
  }

  /** Then memory agrees with the file all along. */
  lemma {:induction false} SyncUnlessOvertaken(m: Maps, saved: Option<Maps>, actions: seq<Action>)
    requires KeyedMaps(m) && (saved == Some(m) || (saved.None? && m == EMPTY))
    requires NoneOvertaken(Start(m, saved), actions)
    ensures Sync(Run(Start(m, saved), actions))
  {
    if actions != [] {
      var front, a := actions[..|actions| - 1], actions[|actions| - 1];
      var s := Run(Start(m, saved), front);
      SyncUnlessOvertaken(m, saved, front);
      MemoryWasSaved(m, saved, front);
      SyncExact(m, saved, front, a);
      if a.Install? {
        assert ReadInv(s, a.id);
      }
    }
  }

  // ----- what is lost otherwise

  function NameOf(op: Op): string {
    if op.Remove? then op.name else op.entry.name
  }

  /** An operation that succeeds on memory that is behind the file saves that memory with
      its own change: of every other name the file then holds what memory held. */
  lemma {:induction false} SavesWhatMemoryHad(s: Machine, op: Op, side: Side, name: string)
    requires Outcome(s.maps, op, NoFault).Ok? && (side != op.side || name != NameOf(op))
    ensures var disk := Of(OnDisk(Step(s, Operate(op, NoFault))), side);
            && (name in disk <==> name in Of(s.maps, side))
            && (name in disk ==> disk[name] == Of(s.maps, side)[name])
  {
    OnlyItsName(s.maps, op, NoFault, side, name);
  }

  /** The run that loses an update on disk: a reload reads, an entry is added, the reload
      installs what it read, another entry is added. Both additions were reported as done;
      the file holds the second and not the first. */
  lemma {:induction false} LostOnDisk(side: Side, a: Entry, b: Entry)
    requires ValidEntry(side, a) && ValidEntry(side, b) && a.name != b.name
    ensures var s := Run(Start(EMPTY, Some(EMPTY)),
                         [Read(0), Operate(Add(side, a), NoFault), Install(0), Operate(Add(side, b), NoFault)]);
            Sync(s) && Of(OnDisk(s), side) == map[b.name := b]
  {
    var add1, add2 := Operate(Add(side, a), NoFault), Operate(Add(side, b), NoFault);
    var s0 := Start(EMPTY, Some(EMPTY));
    var s1 := Step(s0, Read(0));
    var s2 := Step(s1, add1);
    var s3 := Step(s2, Install(0));
    RunFour(s0, Read(0), add1, Install(0), add2);
    assert s1.seen == map[0 := EMPTY];
    assert s3.maps == EMPTY;
  }

  /** In between, memory is missing an entry that the file holds. */
  lemma {:induction false} ForgottenInMemory(side: Side, a: Entry)
    requires ValidEntry(side, a)
    ensures var s := Run(Start(EMPTY, Some(EMPTY)), [Read(0), Operate(Add(side, a), NoFault), Install(0)]);
            !Sync(s) && a.name in Of(OnDisk(s), side) && a.name !in Of(s.maps, side)
  {
    var add1 := Operate(Add(side, a), NoFault);
    var s0 := Start(EMPTY, Some(EMPTY));
    RunThree(s0, Read(0), add1, Install(0));
    assert Step(s0, Read(0)).seen == map[0 := EMPTY];
  }

  lemma {:induction false} RunThree(s: Machine, a: Action, b: Action, c: Action)
    ensures Run(s, [a, b, c]) == Step(Step(Step(s, a), b), c)
  {
    assert [a, b, c][..2] == [a, b] && [a, b][..1] == [a] && [a][..0] == [];
    assert Run(s, [a]) == Step(s, a);
    assert Run(s, [a, b]) == Step(Run(s, [a]), b);
  }

  lemma {:induction false} RunFour(s: Machine, a: Action, b: Action, c: Action, d: Action)
    ensures Run(s, [a, b, c, d]) == Step(Step(Step(Step(s, a), b), c), d)
  {
    RunThree(s, a, b, c);
    assert [a, b, c, d][..3] == [a, b, c];
  }
}
