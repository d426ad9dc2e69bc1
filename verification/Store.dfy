/** The file-backed store of proxies and visitors: two maps, the file they are saved to
    and loaded from, and operations that put the maps back when saving fails. */
module Store {
  import opened Wrappers

  /** A stored config: its name, its type, and everything else. */
  datatype Entry = Entry(name: string, kind: string, rest: string)

  /** Proxies and visitors are handled alike, each in its own map. */
  datatype Side = Proxy | Visitor

  type Entries = map<string, Entry>

  datatype Maps = Maps(proxies: Entries, visitors: Entries)

  const EMPTY := Maps(map[], map[])

  datatype StoreError = InvalidArgument | NotFound | Conflict | Persist | LoadFailed

  datatype Result = Ok | Err(error: StoreError)

  /** What `path` holds. Reading back JSON that was written gives the entries written. */
  datatype File = Missing | Corrupt | Data(proxies: seq<Entry>, visitors: seq<Entry>)

  /** Where a save goes wrong, if it does. */
  datatype Fault = NoFault | DirectoryFails | TempFileFails | RenameFails

  predicate ValidKind(side: Side, kind: string) {
    match side
    case Proxy => kind in ["tcp", "udp", "http", "https", "stcp", "xtcp", "sudp", "tcpmux"]
    case Visitor => kind in ["stcp", "sudp", "xtcp"]
  }

  predicate ValidEntry(side: Side, e: Entry) {
    e.name != "" && ValidKind(side, e.kind)
  }

  // ----- loading

  /** Inserting one entry after another, later ones replacing earlier ones of the same name. */
  function Collected(s: seq<Entry>): Entries {
    if s == [] then map[] else Collected(s[..|s| - 1])[s[|s| - 1].name := s[|s| - 1]]
  }

  predicate AllValid(side: Side, s: seq<Entry>) {
    forall i :: 0 <= i < |s| ==> ValidEntry(side, s[i])
  }

  /** What a fresh load of the file gives. */
  function Loaded(f: File): Option<Maps> {
    match f
    case Data(ps, vs) =>
      if AllValid(Proxy, ps) && AllValid(Visitor, vs) then Some(Maps(Collected(ps), Collected(vs))) else None
    case _ => None
  }

  // ----- saving

  predicate Keyed(side: Side, m: Entries) {
    forall k :: k in m ==> m[k].name == k && ValidEntry(side, m[k])
  }

  predicate KeyedMaps(m: Maps) {
    Keyed(Proxy, m.proxies) && Keyed(Visitor, m.visitors)
  }

  /** s lists the values of m, in whatever order. */
  ghost predicate Lists(s: seq<Entry>, m: Entries) {
    && (forall i :: 0 <= i < |s| ==> s[i].name in m && m[s[i].name] == s[i])
    && (forall k :: k in m ==> m[k] in s)
  }

  lemma {:induction false} CollectedFrom(s: seq<Entry>, k: string)
    ensures k in Collected(s) ==> Collected(s)[k] in s && Collected(s)[k].name == k
    ensures forall e :: e in s ==> e.name in Collected(s)
  {
    if s != [] {
      CollectedFrom(s[..|s| - 1], k);
      forall e | e in s ensures e.name in Collected(s) {
        if e in s[..|s| - 1] {
          assert e.name in Collected(s[..|s| - 1]);
        }
      }
    }
  }

  /** Loading undoes saving, in any order of the values. */
  lemma {:induction false} LoadUndoesSave(m: Maps, ps: seq<Entry>, vs: seq<Entry>)
    requires KeyedMaps(m) && Lists(ps, m.proxies) && Lists(vs, m.visitors)
    ensures Loaded(Data(ps, vs)) == Some(m)
  {
    CollectedLists(Proxy, m.proxies, ps);
    CollectedLists(Visitor, m.visitors, vs);
  }

  lemma {:induction false} CollectedLists(side: Side, m: Entries, s: seq<Entry>)
    requires Keyed(side, m) && Lists(s, m)
    ensures AllValid(side, s) && Collected(s) == m
  {
    var c := Collected(s);
    forall k ensures k in c <==> k in m {
      CollectedFrom(s, k);
      if k in m {
        assert m[k] in s;
      }
    }
    forall k | k in c ensures c[k] == m[k] {
      CollectedFrom(s, k);
    }
  }

  /** The values of a map in an order of the map's own choosing. */
  method Values(m: Entries) returns (s: seq<Entry>)
    requires forall k :: k in m ==> m[k].name == k
    ensures Lists(s, m)
  {
    s := [];
    var left := m.Keys;
    while left != {}
      invariant left <= m.Keys
      invariant forall i :: 0 <= i < |s| ==> s[i].name in m && m[s[i].name] == s[i]
      invariant forall k :: k in m && k !in left ==> m[k] in s
      decreases left
    {
      var k :| k in left;
      s := s + [m[k]];
      left := left - {k};
    }
  }

  class Disk {
    var file: File
    /** The temporary file beside it, if one is there. */
    var temp: Option<File>

    constructor (file: File)
      ensures this.file == file && temp == None
    {
      this.file, temp := file, None;
    }

    /** Writes a temporary file and renames it over the old one. */
    method Save(m: Maps, fault: Fault) returns (r: Result)
      requires KeyedMaps(m)
      modifies this
      ensures r == if fault == NoFault then Ok else Err(Persist)
      ensures if r.Ok? then Loaded(file) == Some(m) else file == old(file)
      ensures temp == if fault.DirectoryFails? then old(temp) else None
    {
      var ps := Values(m.proxies);
      var vs := Values(m.visitors);
      if fault.DirectoryFails? {
        return Err(Persist);
      }
      if fault.TempFileFails? {
        temp := None;
        return Err(Persist);
      }
      temp := Some(Data(ps, vs));
      if fault.RenameFails? {
        temp := None;
        return Err(Persist);
      }
      file, temp := temp.value, None;
      LoadUndoesSave(m, ps, vs);
      return Ok;
    }

    method Load() returns (r: Option<Maps>)
      ensures r == Loaded(file)
    {
      if !file.Data? {
        return None;
      }
      var ps := LoadSide(Proxy, file.proxies);
      if ps.None? {
        return None;
      }
      var vs := LoadSide(Visitor, file.visitors);
      if vs.None? {
        return None;
      }
      return Some(Maps(ps.value, vs.value));
    }
  }

  method LoadSide(side: Side, s: seq<Entry>) returns (r: Option<Entries>)
    ensures r == if AllValid(side, s) then Some(Collected(s)) else None
  {
    var m: Entries := map[];
    for i := 0 to |s|
      invariant AllValid(side, s[..i]) && m == Collected(s[..i])
    {
      if !ValidEntry(side, s[i]) {
        return None;
      }
      assert s[..i + 1][..i] == s[..i];
      m := m[s[i].name := s[i]];
    }
    assert s[..|s|] == s;
    return Some(m);
  }

  // ----- what the operations mean

  datatype Op =
    | Add(side: Side, entry: Entry)
    | Update(side: Side, entry: Entry)
    | Remove(side: Side, name: string)

  function Of(m: Maps, side: Side): Entries {
    if side.Proxy? then m.proxies else m.visitors
  }

  function With(m: Maps, side: Side, entries: Entries): Maps {
    if side.Proxy? then m.(proxies := entries) else m.(visitors := entries)
  }

  /** The reason an operation is refused before anything is touched. */
  function Refused(m: Maps, op: Op): Option<StoreError> {
    match op
    case Add(side, e) =>
      if !ValidEntry(side, e) then Some(InvalidArgument)
      else if e.name in Of(m, side) then Some(Conflict) else None
    case Update(side, e) =>
      if !ValidEntry(side, e) then Some(InvalidArgument)
      else if e.name !in Of(m, side) then Some(NotFound) else None
    case Remove(side, name) =>
      if name == "" then Some(InvalidArgument)
      else if name !in Of(m, side) then Some(NotFound) else None
  }

  function Changed(m: Maps, op: Op): Maps {
    match op
    case Add(side, e) => With(m, side, Of(m, side)[e.name := e])
    case Update(side, e) => With(m, side, Of(m, side)[e.name := e])
    case Remove(side, name) => With(m, side, Of(m, side) - {name})
  }

  function Outcome(m: Maps, op: Op, fault: Fault): Result {
    if Refused(m, op).Some? then Err(Refused(m, op).value)
    else if fault != NoFault then Err(Persist)
    else Ok
  }

  /** All or nothing. */
  function Applied(m: Maps, op: Op, fault: Fault): Maps {
    if Outcome(m, op, fault).Ok? then Changed(m, op) else m
  }

  lemma {:induction false} ChangedKeyed(m: Maps, op: Op)
    requires KeyedMaps(m) && Refused(m, op).None?
    ensures KeyedMaps(Changed(m, op))
  {
  }

  // ----- the store

  /** What memory holds is what a fresh load of the file gives; while there is no file,
      nothing. */
  predicate InSync(m: Maps, f: File) {
    Loaded(f) == Some(m) || (f == Missing && m == EMPTY)
  }

  class StoreSource {
    const disk: Disk
    var maps: Maps

    ghost predicate Valid()
      reads this
    {
      KeyedMaps(maps)
    }

    ghost predicate Synced()
      reads this, disk
    {
      InSync(maps, disk.file)
    }

    constructor (disk: Disk, maps: Maps)
      ensures this.disk == disk && this.maps == maps
    {
      this.disk, this.maps := disk, maps;
    }

    method Insert(side: Side, name: string, e: Entry)
      modifies this
      ensures maps == With(old(maps), side, Of(old(maps), side)[name := e])
    {
      maps := With(maps, side, Of(maps, side)[name := e]);
    }

    method Delete(side: Side, name: string)
      modifies this
      ensures maps == With(old(maps), side, Of(old(maps), side) - {name})
    {
      maps := With(maps, side, Of(maps, side) - {name});
    }

    method Add(side: Side, e: Entry, fault: Fault) returns (r: Result)
      requires Valid()
      modifies this, disk
      ensures Valid()
      ensures r == Outcome(old(maps), Op.Add(side, e), fault) && maps == Applied(old(maps), Op.Add(side, e), fault)
      ensures r.Ok? ==> e.name in Of(maps, side) && Of(maps, side)[e.name] == e
      ensures if r.Ok? then Loaded(disk.file) == Some(maps) else disk.file == old(disk.file)
    {
      if !ValidEntry(side, e) {
        return Err(InvalidArgument);
      }
      if e.name in Of(maps, side) {
        return Err(Conflict);
      }
      ChangedKeyed(maps, Op.Add(side, e));
      Insert(side, e.name, e);
      r := disk.Save(maps, fault);
      if r.Err? {
        RemoveUndoesInsert(old(maps), side, e.name, e);
        Delete(side, e.name);
      }
    }

    method Update(side: Side, e: Entry, fault: Fault) returns (r: Result)
      requires Valid()
      modifies this, disk
      ensures Valid()
      ensures r == Outcome(old(maps), Op.Update(side, e), fault)
      ensures maps == Applied(old(maps), Op.Update(side, e), fault)
      ensures r.Ok? ==> e.name in Of(maps, side) && Of(maps, side)[e.name] == e
      ensures if r.Ok? then Loaded(disk.file) == Some(maps) else disk.file == old(disk.file)
    {
      if !ValidEntry(side, e) {
        return Err(InvalidArgument);
      }
      if e.name !in Of(maps, side) {
        return Err(NotFound);
      }
      var was := Of(maps, side)[e.name];
      ChangedKeyed(maps, Op.Update(side, e));
      Insert(side, e.name, e);
      r := disk.Save(maps, fault);
      if r.Err? {
        InsertUndoesInsert(old(maps), side, e.name, e);
        Insert(side, e.name, was);
      }
    }

    method Remove(side: Side, name: string, fault: Fault) returns (r: Result)
      requires Valid()
      modifies this, disk
      ensures Valid()
      ensures r == Outcome(old(maps), Op.Remove(side, name), fault)
      ensures maps == Applied(old(maps), Op.Remove(side, name), fault)
      ensures r.Ok? ==> name !in Of(maps, side)
      ensures if r.Ok? then Loaded(disk.file) == Some(maps) else disk.file == old(disk.file)
    {
      if name == "" {
        return Err(InvalidArgument);
      }
      if name !in Of(maps, side) {
        return Err(NotFound);
      }
      var was := Of(maps, side)[name];
      ChangedKeyed(maps, Op.Remove(side, name));
      Delete(side, name);
      r := disk.Save(maps, fault);
      if r.Err? {
        InsertUndoesRemove(old(maps), side, name);
        Insert(side, name, was);
      }
    }

    /** The first half of a reload, done without the lock. */
    method ReadFile() returns (loaded: Option<Maps>)
      ensures loaded == Loaded(disk.file)
    {
      loaded := disk.Load();
    }

    /** The second half, under the lock. */
    method Install(loaded: Maps)
      modifies this
      ensures maps == loaded
    {
      maps := loaded;
    }

    /** A reload with nothing in between: takes all of the file or, when it does not load,
        nothing. */
    method Reload() returns (r: Result)
      requires Valid()
      modifies this
      ensures Valid()
      ensures r == if Loaded(disk.file).Some? then Ok else Err(LoadFailed)
      ensures maps == if r.Ok? then Loaded(disk.file).value else old(maps)
    {
      var loaded := ReadFile();
      if loaded.None? {
        return Err(LoadFailed);
      }
      LoadedKeyed(disk.file);
      Install(loaded.value);
      return Ok;
    }

    method Perform(op: Op, fault: Fault) returns (r: Result)
      requires Valid()
      modifies this, disk
      ensures Valid()
      ensures r == Outcome(old(maps), op, fault) && maps == Applied(old(maps), op, fault)
      ensures if r.Ok? then Loaded(disk.file) == Some(maps) else disk.file == old(disk.file)
    {
      match op
      case Add(side, e) => r := Add(side, e, fault);
      case Update(side, e) => r := Update(side, e, fault);
      case Remove(side, name) => r := Remove(side, name, fault);
    }
  }

  lemma {:induction false} RemoveUndoesInsert(m: Maps, side: Side, name: string, e: Entry)
    requires name !in Of(m, side)
    ensures var n := With(m, side, Of(m, side)[name := e]); With(n, side, Of(n, side) - {name}) == m
  {
    assert Of(m, side)[name := e] - {name} == Of(m, side);
  }

  lemma {:induction false} InsertUndoesInsert(m: Maps, side: Side, name: string, e: Entry)
    requires name in Of(m, side)
    ensures var n := With(m, side, Of(m, side)[name := e]);
            With(n, side, Of(n, side)[name := Of(m, side)[name]]) == m
  {
    assert Of(m, side)[name := e][name := Of(m, side)[name]] == Of(m, side);
  }

  lemma {:induction false} InsertUndoesRemove(m: Maps, side: Side, name: string)
    requires name in Of(m, side)
    ensures var n := With(m, side, Of(m, side) - {name});
            With(n, side, Of(n, side)[name := Of(m, side)[name]]) == m
  {
    assert (Of(m, side) - {name})[name := Of(m, side)[name]] == Of(m, side);
  }

  lemma {:induction false} LoadedKeyed(f: File)
    requires Loaded(f).Some?
    ensures KeyedMaps(Loaded(f).value)
  {
    CollectedKeyed(Proxy, f.proxies);
    CollectedKeyed(Visitor, f.visitors);
  }

  lemma {:induction false} CollectedKeyed(side: Side, s: seq<Entry>)
    requires AllValid(side, s)
    ensures Keyed(side, Collected(s))
  {
    forall k | k in Collected(s) ensures Collected(s)[k].name == k && ValidEntry(side, Collected(s)[k]) {
      CollectedFrom(s, k);
    }
  }

  datatype Opened = Store(store: StoreSource) | Failed(error: StoreError)

  /** A missing file opens empty; one that does not load is an error. */
  method Open(path: string, disk: Disk) returns (r: Opened)
    ensures r.Failed? <==> path == "" || disk.file == Corrupt || (disk.file.Data? && Loaded(disk.file).None?)
    ensures r.Failed? ==> r.error == if path == "" then InvalidArgument else LoadFailed
    ensures r.Store? ==> fresh(r.store) && r.store.disk == disk && r.store.Valid() && r.store.Synced()
  {
    if path == "" {
      return Failed(InvalidArgument);
    }
    var maps := EMPTY;
    if disk.file != Missing {
      var loaded := disk.Load();
      if loaded.None? {
        return Failed(LoadFailed);
      }
      LoadedKeyed(disk.file);
      maps := loaded.value;
    }
    var store := new StoreSource(disk, maps);
    return Store(store);
  }

  // ----- whole runs

  /** An operation with whatever goes wrong while saving it, or a reload. */
  datatype Step = Operation(op: Op, fault: Fault) | Reload

  function Final(m: Maps, steps: seq<Step>): Maps {
    if steps == [] then m
    else
      var before := Final(m, steps[..|steps| - 1]);
      match steps[|steps| - 1]
      case Operation(op, fault) => Applied(before, op, fault)
      case Reload => before
  }

  /** After any operations, with any failures, memory is what a fresh load gives and is
      what the successful operations made it; a reload never changes it. */
  method RunAll(store: StoreSource, steps: seq<Step>)
    requires store.Valid() && store.Synced()
    modifies store, store.disk
    ensures store.Valid() && store.Synced()
    ensures store.maps == Final(old(store.maps), steps)
  {
    for i := 0 to |steps|
      invariant store.Valid() && store.Synced() && store.maps == Final(old(store.maps), steps[..i])
    {
      assert steps[..i + 1][..i] == steps[..i];
      match steps[i]
      case Operation(op, fault) =>
        var _ := store.Perform(op, fault);
      case Reload =>
        var _ := store.Reload();
    }
    assert steps[..|steps|] == steps;
  }

  /** Only an operation that reports success changes anything, and it changes what its
      own name holds and nothing else. */
  lemma {:induction false} OnlyItsName(m: Maps, op: Op, fault: Fault, side: Side, name: string)
    requires !Outcome(m, op, fault).Ok? || side != op.side || name != (if op.Remove? then op.name else op.entry.name)
    ensures name in Of(Applied(m, op, fault), side) <==> name in Of(m, side)
    ensures name in Of(m, side) ==> Of(Applied(m, op, fault), side)[name] == Of(m, side)[name]
  {
  }

  /** An operation succeeds exactly when it makes sense and the save does not fail; then the
      name holds the new entry, or nothing after a removal. */
  lemma {:induction false} OperationExact(m: Maps, op: Op, fault: Fault)
    ensures var name := if op.Remove? then op.name else op.entry.name;
            var before, after := Of(m, op.side), Of(Applied(m, op, fault), op.side);
            && (Outcome(m, op, fault).Ok? <==>
                  && fault == NoFault && name != "" && (!op.Remove? ==> ValidKind(op.side, op.entry.kind))
                  && (op.Add? <==> name !in before))
            && (Outcome(m, op, fault).Ok? && !op.Remove? ==> name in after && after[name] == op.entry)
            && (Outcome(m, op, fault).Ok? && op.Remove? ==> name !in after)
  {
  }

  /** Why an operation is refused, the first reason that applies. */
  lemma {:induction false} RefusalExact(m: Maps, op: Op, fault: Fault)
    requires Outcome(m, op, fault).Err?
    ensures var name := if op.Remove? then op.name else op.entry.name;
            var bad := name == "" || (!op.Remove? && !ValidKind(op.side, op.entry.kind));
            Outcome(m, op, fault).error ==
              if bad then InvalidArgument
              else if op.Add? && name in Of(m, op.side) then Conflict
              else if !op.Add? && name !in Of(m, op.side) then NotFound
              else Persist
  {
  }

  /** Of several entries of one name in a file the last one counts. */
  lemma {:induction false} LastOfNameCounts(s: seq<Entry>, i: nat)
    requires i < |s| && forall j :: i < j < |s| ==> s[j].name != s[i].name
    ensures s[i].name in Collected(s) && Collected(s)[s[i].name] == s[i]
  {
    var front := s[..|s| - 1];
    if i < |front| {
      LastOfNameCounts(front, i);
    }
  }

  /** What succeeds can be undone: adding then removing, and updating back. */
  lemma {:induction false} RemoveUndoesAdd(m: Maps, side: Side, e: Entry)
    requires Refused(m, Op.Add(side, e)).None?
    ensures var n := Applied(m, Op.Add(side, e), NoFault);
            Refused(n, Op.Remove(side, e.name)).None? && Applied(n, Op.Remove(side, e.name), NoFault) == m
  {
    RemoveUndoesInsert(m, side, e.name, e);
  }
}
