/** TableManagerImpl over its storage, with a single manager: the in-memory maps by name and by ID against
    what Load would rebuild from the keys.

    A storage request may fail without effect. */
module TableManager {
  import opened Common

  /** The name of a schema or a table. */
  type Name = string

  datatype Table = Table(id: nat, name: Name, schema: nat)

  datatype Schema = Schema(id: nat, name: Name)

  /** The in-memory tables of a schema. */
  datatype Tables = Tables(byName: map<Name, Table>, byID: map<nat, Table>)

  /** The keys of a schema: name to ID, and ID to table. */
  datatype Dir = Dir(ids: map<Name, nat>, tables: map<nat, Table>)

  const NoTables: Tables := Tables(map[], map[])

  const NoKeys: Dir := Dir(map[], map[])

  ghost predicate Bijective(d: Dir, schema: nat)
  {
    && (forall n :: n in d.ids ==> d.ids[n] in d.tables && d.tables[d.ids[n]].name == n)
    && (forall i :: i in d.tables ==> d.tables[i].id == i && d.tables[i].schema == schema)
    && (forall i :: i in d.tables ==> d.tables[i].name in d.ids && d.ids[d.tables[i].name] == i)
  }

  /** What loadTables builds from the keys of a schema. */
  function Loaded(d: Dir): Tables
    requires forall n :: n in d.ids ==> d.ids[n] in d.tables
  {
    Tables(map n | n in d.ids :: d.tables[d.ids[n]], d.tables)
  }

  lemma LoadedCreate(d: Dir, t: Table)
    requires Bijective(d, t.schema) && t.name !in d.ids && t.id !in d.tables
    ensures var e := Dir(d.ids[t.name := t.id], d.tables[t.id := t]);
      Bijective(e, t.schema) && Loaded(e) == Tables(Loaded(d).byName[t.name := t], Loaded(d).byID[t.id := t])
  {
    var e := Dir(d.ids[t.name := t.id], d.tables[t.id := t]);
    assert Bijective(e, t.schema);
    assert Loaded(e).byName == Loaded(d).byName[t.name := t];
  }

  lemma LoadedDelete(d: Dir, name: Name, schema: nat)
    requires Bijective(d, schema) && name in d.ids
    ensures var id := d.ids[name]; var e := Dir(d.ids - {name}, d.tables - {id});
      && Bijective(e, schema) && Loaded(d).byName[name].id == id
      && Loaded(e) == Tables(Loaded(d).byName - {name}, Loaded(d).byID - {id})
  {
    var id := d.ids[name];
    var e := Dir(d.ids - {name}, d.tables - {id});
    assert Bijective(e, schema);
    assert Loaded(e).byName == Loaded(d).byName - {name};
  }

  // ----- memory against storage, on values -----

  /** The schema and table keys of a cluster. */
  datatype Disk = Disk(schemas: map<nat, Schema>, dirs: map<nat, Dir>)

  function DirOf(dirs: map<nat, Dir>, schema: nat): Dir
  {
    if schema in dirs then dirs[schema] else NoKeys
  }

  /** The tables of a schema in memory; a schema without entry has none. */
  function Of(m: map<nat, Tables>, schema: nat): Tables
  {
    if schema in m then m[schema] else NoTables
  }

  ghost predicate DirsOk(dirs: map<nat, Dir>)
  {
    forall i :: i in dirs ==> Bijective(dirs[i], i)
  }

  /** For every schema, both in-memory maps are those that Load would build. */
  ghost predicate TablesSynced(m: map<nat, Tables>, dirs: map<nat, Dir>)
  {
    DirsOk(dirs) && forall i :: Of(m, i) == Loaded(DirOf(dirs, i))
  }

  /** The in-memory schemas are exactly the stored ones, by name. */
  ghost predicate SchemasSynced(m: map<Name, Schema>, d: map<nat, Schema>)
  {
    && (forall n :: n in m ==> m[n].name == n && m[n].id in d && d[m[n].id] == m[n])
    && (forall i :: i in d ==> d[i].id == i && d[i].name in m && m[d[i].name] == d[i])
  }

  /** What loadTables builds: an entry for every schema that has a table, and no other. */
  function Rebuilt(dirs: map<nat, Dir>): map<nat, Tables>
    requires DirsOk(dirs)
  {
    map i | i in dirs && dirs[i].tables != map[] :: Loaded(dirs[i])
  }

  /** The memory has the entries Load would build and possibly empty ones; it is exactly what Load would
      build when it has no empty entry. */
  lemma ReloadExactly(m: map<nat, Tables>, dirs: map<nat, Dir>)
    requires TablesSynced(m, dirs)
    ensures forall i, n :: i in dirs && n in dirs[i].ids ==> dirs[i].ids[n] in dirs[i].tables
    ensures forall i :: i in Rebuilt(dirs) <==> i in m && m[i].byID != map[]
    ensures forall i :: i in Rebuilt(dirs) ==> Rebuilt(dirs)[i] == m[i]
    ensures m == Rebuilt(dirs) <==> forall i :: i in m ==> m[i].byID != map[]
  {
    forall i, n | i in dirs && n in dirs[i].ids ensures dirs[i].ids[n] in dirs[i].tables {
      assert Bijective(dirs[i], i);
    }
    var r := Rebuilt(dirs);
    forall i ensures i in r <==> i in m && m[i].byID != map[] {
      assert Of(m, i) == Loaded(DirOf(dirs, i));
    }
    forall i | i in r ensures r[i] == m[i] {
      assert Of(m, i) == Loaded(DirOf(dirs, i));
    }
    if forall i :: i in m ==> m[i].byID != map[] { assert m.Keys == r.Keys; }
  }

  /** Memory after DropTable has deleted the keys: the entry of the schema stays, also when it becomes empty. */
  function Forgotten(m: map<nat, Tables>, schema: nat, name: Name): map<nat, Tables>
  {
    if schema in m && name in m[schema].byName then
      m[schema := Tables(m[schema].byName - {name}, m[schema].byID - {m[schema].byName[name].id})]
    else m
  }

  /** The name is there, and no other table is. */
  predicate OnlyTable(d: Dir, name: Name)
  {
    d.ids.Keys == {name}
  }

  lemma EmptiedExactly(d: Dir, schema: nat, name: Name)
    requires Bijective(d, schema) && name in d.ids
    ensures d.tables - {d.ids[name]} == map[] <==> OnlyTable(d, name)
  {
    if d.tables - {d.ids[name]} == map[] {
      forall n | n in d.ids ensures n == name { assert d.ids[n] !in d.tables - {d.ids[name]}; }
    }
  }

  /** Of a memory that is what Load builds, a drop leaves one that Load would build if and only if it does not drop the
      only table of its schema. */
  lemma DropExactly(m: map<nat, Tables>, dirs: map<nat, Dir>, schema: nat, name: Name)
    requires TablesSynced(m, dirs) && m == Rebuilt(dirs) && schema in m
    ensures TablesSynced(Forgotten(m, schema, name), WithoutTable(dirs, schema, name))
    ensures Forgotten(m, schema, name) == Rebuilt(WithoutTable(dirs, schema, name))
      <==> !OnlyTable(DirOf(dirs, schema), name)
  {
    var d := DirOf(dirs, schema);
    assert Bijective(d, schema) && Of(m, schema) == Loaded(d);
    ReloadExactly(m, dirs);
    if name in d.ids {
      DeleteSynced(m, dirs, schema, name);
      LoadedDelete(d, name, schema);
      EmptiedExactly(d, schema, name);
      var n := Forgotten(m, schema, name);
      assert n == m[schema := Loaded(Dir(d.ids - {name}, d.tables - {d.ids[name]}))];
      ReloadExactly(n, WithoutTable(dirs, schema, name));
    }
  }

  /** A table that is created leaves memory what Load would build, if it was so before. */
  lemma CreateReloaded(m: map<nat, Tables>, dirs: map<nat, Dir>, t: Table, n: map<nat, Tables>)
    requires TablesSynced(m, dirs)
    requires n == m[t.schema := Tables(Of(m, t.schema).byName[t.name := t], Of(m, t.schema).byID[t.id := t])]
    requires TablesSynced(n, WithTable(dirs, t))
    ensures m == Rebuilt(dirs) ==> n == Rebuilt(WithTable(dirs, t))
  {
    ReloadExactly(m, dirs);
    assert t.id in n[t.schema].byID;
    ReloadExactly(n, WithTable(dirs, t));
  }

  lemma OneSchema(d: Dir, dirs: map<nat, Dir>)
    requires Bijective(d, 0) && d.tables != map[] && dirs == map[0 := d]
    ensures DirsOk(dirs) && Rebuilt(dirs) == map[0 := Loaded(d)] && TablesSynced(Rebuilt(dirs), dirs)
  {
  }

  /** The only table of schema 0 is loaded and dropped: an empty entry stays that Load would not build. */
  lemma LastDropLeavesEntry(name: Name) returns (before: map<nat, Dir>, m: map<nat, Tables>)
    ensures TablesSynced(m, before) && m == Rebuilt(before) && 0 in m && name in m[0].byName
    ensures DirsOk(WithoutTable(before, 0, name))
    ensures Forgotten(m, 0, name) == map[0 := NoTables]
    ensures Forgotten(m, 0, name) != Rebuilt(WithoutTable(before, 0, name))
  {
    var d := Dir(map[name := 1], map[1 := Table(1, name, 0)]);
    assert 1 in d.tables;
    before := map[0 := d];
    OneSchema(d, before);
    m := Rebuilt(before);
    DropExactly(m, before, 0, name);
    assert m[0].byName - {name} == map[] && m[0].byID - {1} == map[];
  }

  lemma TablesChanged(m: map<nat, Tables>, dirs: map<nat, Dir>, schema: nat, tables: Tables, dir: Dir)
    requires TablesSynced(m, dirs) && Bijective(dir, schema) && tables == Loaded(dir)
    ensures TablesSynced(m[schema := tables], dirs[schema := dir])
  {
    var n, e := m[schema := tables], dirs[schema := dir];
    forall i | i in e ensures Bijective(e[i], i) {
      if i != schema { assert Bijective(dirs[i], i); }
    }
    forall i ensures Of(n, i) == Loaded(DirOf(e, i)) {
      if i != schema { assert Of(m, i) == Loaded(DirOf(dirs, i)); }
    }
  }

  lemma SchemaAdded(m: map<Name, Schema>, d: map<nat, Schema>, s: Schema)
    requires SchemasSynced(m, d) && s.name !in m && s.id !in d
    ensures SchemasSynced(m[s.name := s], d[s.id := s])
  {
    var n, e := m[s.name := s], d[s.id := s];
    forall x | x in n ensures n[x].name == x && n[x].id in e && e[n[x].id] == n[x] {
      if x != s.name { assert m[x].id in d; }
    }
    forall i | i in e ensures e[i].id == i && e[i].name in n && n[e[i].name] == e[i] {
      if i != s.id { assert d[i].name in m; }
    }
  }

  // ----- loading -----

  /** The order of a listing does not matter here; each entry occurs in it. */
  ghost predicate Lists(list: seq<Table>, d: Dir)
  {
    && (forall k :: 0 <= k < |list| ==> list[k].id in d.tables && d.tables[list[k].id] == list[k])
    && (forall i :: i in d.tables ==> d.tables[i] in list)
  }

  /** The tables after adding a list one by one, as the inner loop of loadTables does. */
  function Filled(list: seq<Table>): Tables
  {
    if list == [] then NoTables
    else
      var k := |list| - 1;
      var prev := Filled(list[..k]);
      Tables(prev.byName[list[k].name := list[k]], prev.byID[list[k].id := list[k]])
  }

  ghost predicate PartOf(t: Tables, list: seq<Table>, d: Dir)
    requires forall n :: n in d.ids ==> d.ids[n] in d.tables
  {
    && (forall i :: i in t.byID ==> i in d.tables && t.byID[i] == d.tables[i])
    && (forall n :: n in t.byName ==> n in d.ids && t.byName[n] == d.tables[d.ids[n]])
    && (forall k :: 0 <= k < |list| ==> list[k].id in t.byID && list[k].name in t.byName)
  }

  lemma {:induction false} FilledPart(list: seq<Table>, d: Dir, schema: nat)
    requires Bijective(d, schema)
    requires forall k :: 0 <= k < |list| ==> list[k].id in d.tables && d.tables[list[k].id] == list[k]
    ensures PartOf(Filled(list), list, d)
    decreases |list|
  {
    if list != [] {
      var k := |list| - 1;
      FilledPart(list[..k], d, schema);
      assert list[k].name in d.ids && d.ids[list[k].name] == list[k].id;
    }
  }

  lemma FilledLoaded(list: seq<Table>, d: Dir, schema: nat)
    requires Bijective(d, schema) && Lists(list, d)
    ensures Filled(list) == Loaded(d)
  {
    FilledPart(list, d, schema);
    var t := Filled(list);
    forall i | i in d.tables ensures i in t.byID {
      var k :| 0 <= k < |list| && list[k] == d.tables[i];
      assert list[k].id in t.byID;
    }
    assert t.byID.Keys == d.tables.Keys;
    forall n | n in d.ids ensures n in t.byName {
      var k :| 0 <= k < |list| && list[k] == d.tables[d.ids[n]];
      assert list[k].name in t.byName;
    }
    assert t.byName.Keys == d.ids.Keys;
  }

  /** Every schema is stored under its own ID, and no two have the same name. */
  ghost predicate SchemaKeysOk(d: map<nat, Schema>)
  {
    && (forall i :: i in d ==> d[i].id == i)
    && (forall i, j :: i in d && j in d && d[i].name == d[j].name ==> i == j)
  }

  ghost predicate ListsSchemas(list: seq<Schema>, d: map<nat, Schema>)
  {
    && (forall k :: 0 <= k < |list| ==> list[k].id in d && d[list[k].id] == list[k])
    && (forall i :: i in d ==> d[i] in list)
  }

  lemma ByNameComplete(m: map<Name, Schema>, d: map<nat, Schema>, list: seq<Schema>)
    requires SchemaKeysOk(d) && ListsSchemas(list, d)
    requires forall n :: n in m ==> m[n].name == n && m[n].id in d && d[m[n].id] == m[n]
    requires forall k :: 0 <= k < |list| ==> list[k].name in m
    ensures SchemasSynced(m, d)
  {
    forall i | i in d ensures d[i].name in m && m[d[i].name] == d[i] {
      var k :| 0 <= k < |list| && list[k] == d[i];
      assert list[k].name in m;
      var x := m[d[i].name];
      assert d[x.id].name == d[i].name;
    }
  }

  ghost predicate OneLoaded(m: map<nat, Tables>, dirs: map<nat, Dir>, done: set<nat>, i: nat)
    requires DirsOk(dirs)
  {
    Of(m, i) == if i in done then Loaded(DirOf(dirs, i)) else NoTables
  }

  /** The memory after loading the schemas in `done`. */
  ghost predicate LoadedSo(m: map<nat, Tables>, dirs: map<nat, Dir>, done: set<nat>)
    requires DirsOk(dirs)
  {
    && (forall i :: OneLoaded(m, dirs, done, i))
    && (forall i :: i in m ==> m[i].byID != map[])
  }

  lemma OtherLoaded(m: map<nat, Tables>, dirs: map<nat, Dir>, done: set<nat>, i: nat, x: Tables, n: map<nat, Tables>,
      j: nat)
    requires DirsOk(dirs) && OneLoaded(m, dirs, done, j) && j != i && (n == m || n == m[i := x])
    ensures OneLoaded(n, dirs, done + {i}, j)
  {
  }

  lemma LoadOne(m: map<nat, Tables>, dirs: map<nat, Dir>, done: set<nat>, i: nat, list: seq<Table>, n: map<nat, Tables>)
    requires DirsOk(dirs) && LoadedSo(m, dirs, done) && i !in done && Lists(list, DirOf(dirs, i))
    requires n == if list == [] then m else m[i := Filled(list)]
    ensures LoadedSo(n, dirs, done + {i})
  {
    var d := DirOf(dirs, i);
    assert Bijective(d, i);
    assert OneLoaded(m, dirs, done, i);
    LoadedEntry(m, d, i, list, n);
    forall j ensures OneLoaded(n, dirs, done + {i}, j) {
      if j != i {
        assert OneLoaded(m, dirs, done, j);
        OtherLoaded(m, dirs, done, i, Filled(list), n, j);
      }
    }
  }

  lemma LoadedEntry(m: map<nat, Tables>, d: Dir, i: nat, list: seq<Table>, n: map<nat, Tables>)
    requires Bijective(d, i) && Lists(list, d) && Of(m, i) == NoTables
    requires n == if list == [] then m else m[i := Filled(list)]
    ensures Of(n, i) == Loaded(d) && (list != [] ==> Filled(list).byID != map[])
  {
    FilledLoaded(list, d, i);
    if list == [] {
      EmptyListing(d, i);
    } else {
      assert list[0].id in d.tables;
    }
  }

  lemma EmptyListing(d: Dir, schema: nat)
    requires Bijective(d, schema) && Lists([], d)
    ensures Loaded(d) == NoTables
  {
    FilledLoaded([], d, schema);
  }

  // ----- the storage -----

  /** The requests of the storage. */
  class Storage {
    var disk: Disk
    /** How many requests failed or did not find what they asked for. */
    ghost var misses: nat

    constructor ()
      ensures disk == Disk(map[], map[]) && misses == 0
    {
      disk, misses := Disk(map[], map[]), 0;
    }

    /** ListSchemas; None for an error. */
    method ListSchemas() returns (r: Option<seq<Schema>>)
      requires SchemaKeysOk(disk.schemas)
      modifies this`misses
      ensures r.Some? ==> ListsSchemas(r.value, disk.schemas)
      ensures misses == old(misses) + if r.Some? then 0 else 1
    {
      var fails := *;
      if fails {
        misses := misses + 1;
        return None;
      }
      var list := AllSchemas(disk.schemas);
      return Some(list);
    }

    static method AllSchemas(d: map<nat, Schema>) returns (list: seq<Schema>)
      requires SchemaKeysOk(d)
      ensures ListsSchemas(list, d)
    {
      list := [];
      var rest := d.Keys;
      while rest != {}
        invariant rest <= d.Keys
        invariant forall k :: 0 <= k < |list| ==> list[k].id in d && d[list[k].id] == list[k]
        invariant forall i :: i in d && i !in rest ==> d[i] in list
        decreases |rest|
      {
        var id := Pick(rest);
        list := list + [d[id]];
        assert |rest - {id}| == |rest| - 1;
        rest := rest - {id};
      }
    }

    /** ListTables; None for an error. */
    method ListTables(schema: nat) returns (r: Option<seq<Table>>)
      requires DirsOk(disk.dirs)
      modifies this`misses
      ensures r.Some? ==> Lists(r.value, DirOf(disk.dirs, schema))
      ensures misses == old(misses) + if r.Some? then 0 else 1
    {
      var fails := *;
      if fails {
        misses := misses + 1;
        return None;
      }
      var d := DirOf(disk.dirs, schema);
      assert Bijective(d, schema);
      var list := AllTables(d, schema);
      return Some(list);
    }

    static method AllTables(d: Dir, ghost schema: nat) returns (list: seq<Table>)
      requires Bijective(d, schema)
      ensures Lists(list, d)
    {
      list := [];
      var rest := d.tables.Keys;
      while rest != {}
        invariant rest <= d.tables.Keys
        invariant forall k :: 0 <= k < |list| ==> list[k].id in d.tables && d.tables[list[k].id] == list[k]
        invariant forall i :: i in d.tables && i !in rest ==> d.tables[i] in list
        decreases |rest|
      {
        var id := Pick(rest);
        list := list + [d.tables[id]];
        assert |rest - {id}| == |rest| - 1;
        rest := rest - {id};
      }
    }

    /** CreateSchema: the key of the ID must be missing. */
    method CreateSchema(schema: Schema) returns (ok: bool)
      modifies this
      ensures ok ==> schema.id !in old(disk).schemas
      ensures disk == if ok then old(disk).(schemas := old(disk).schemas[schema.id := schema]) else old(disk)
      ensures misses == old(misses) + if ok then 0 else 1
    {
      ok := *;
      ok := ok && schema.id !in disk.schemas;
      if ok { disk := disk.(schemas := disk.schemas[schema.id := schema]); }
      misses := misses + if ok then 0 else 1;
    }

    /** CreateTable: both keys must be missing; `answered` says whether the request gets through. */
    method CreateTable(table: Table, answered: bool) returns (ok: bool)
      modifies this`disk
      ensures var d := DirOf(old(disk).dirs, table.schema);
        && (ok <==> answered && table.name !in d.ids && table.id !in d.tables)
        && var e := Dir(d.ids[table.name := table.id], d.tables[table.id := table]);
        disk == if ok then old(disk).(dirs := old(disk).dirs[table.schema := e]) else old(disk)
    {
      var d := DirOf(disk.dirs, table.schema);
      ok := answered && table.name !in d.ids && table.id !in d.tables;
      if ok {
        var e := Dir(d.ids[table.name := table.id], d.tables[table.id := table]);
        disk := disk.(dirs := disk.dirs[table.schema := e]);
      }
    }

    /** DeleteTable: the ID is looked up under the name, and both keys must exist. */
    method DeleteTable(schema: nat, name: Name) returns (ok: bool)
      modifies this
      ensures var d := DirOf(old(disk).dirs, schema);
        if !ok then
          disk == old(disk)
        else
          && name in d.ids
          && disk == old(disk).(dirs := old(disk).dirs[schema := Dir(d.ids - {name}, d.tables - {d.ids[name]})])
      ensures misses == old(misses) + if ok then 0 else 1
    {
      var d := DirOf(disk.dirs, schema);
      if name !in d.ids {
        misses := misses + 1;
        return false;
      }
      var id := d.ids[name];
      ok := *;
      ok := ok && id in d.tables;
      misses := misses + if ok then 0 else 1;
      if ok { disk := disk.(dirs := disk.dirs[schema := Dir(d.ids - {name}, d.tables - {id})]); }
    }
  }

  // ----- the manager -----

  datatype Created = NewTable(table: Table) | SchemaNotFound | AlreadyExists | AllocFailed | StorageFailed

  /** `NilTables` is the nil-pointer dereference of table_manager.go:202. */
  datatype Dropped = Done | DeleteFailed | NilTables

  class TableManagerImpl {
    const storage: Storage
    var schemas: map<Name, Schema>
    var schemaTables: map<nat, Tables>

    constructor (storage: Storage)
      ensures this.storage == storage && schemas == map[] && schemaTables == map[]
    {
      this.storage := storage;
      schemas, schemaTables := map[], map[];
    }

    ghost predicate Valid()
      reads this, storage
    {
      && SchemasSynced(schemas, storage.disk.schemas) && TablesSynced(schemaTables, storage.disk.dirs)
      && storage.disk.dirs.Keys <= storage.disk.schemas.Keys
    }

    /** The tables in memory are exactly what Load would build. */
    ghost predicate Reloaded()
      reads this, storage
    {
      DirsOk(storage.disk.dirs) && schemaTables == Rebuilt(storage.disk.dirs)
    }

    /** loadSchemas. */
    method LoadSchemas() returns (ok: bool)
      requires SchemaKeysOk(storage.disk.schemas)
      modifies this`schemas, storage`misses
      ensures ok ==> SchemasSynced(schemas, storage.disk.schemas)
      ensures !ok ==> schemas == old(schemas)
      ensures storage.misses == old(storage.misses) + if ok then 0 else 1
    {
      var list := storage.ListSchemas();
      if list.None? { return false; }
      schemas := map[];
      ghost var d := storage.disk.schemas;
      for j := 0 to |list.value|
        invariant forall n :: n in schemas ==>
          schemas[n].name == n && schemas[n].id in d && d[schemas[n].id] == schemas[n]
        invariant forall k :: 0 <= k < j ==> list.value[k].name in schemas
        invariant storage.misses == old(storage.misses)
      {
        schemas := schemas[list.value[j].name := list.value[j]];
      }
      ByNameComplete(schemas, d, list.value);
      return true;
    }

    /** Load: the whole memory from the keys. */
    method Load() returns (ok: bool)
      requires SchemaKeysOk(storage.disk.schemas) && DirsOk(storage.disk.dirs)
      requires storage.disk.dirs.Keys <= storage.disk.schemas.Keys
      modifies this`schemas, this`schemaTables, storage`misses
      ensures storage.misses == old(storage.misses) + if ok then 0 else 1
      ensures ok ==> Valid() && Reloaded() && forall i :: i in schemaTables ==> schemaTables[i].byID != map[]
    {
      ok := LoadSchemas();
      if !ok { return; }
      ok := LoadTables();
    }

    /** The inner loop of loadTables: the listed tables enter both maps of their schema. */
    static method AddListed(m: map<nat, Tables>, id: nat, list: seq<Table>) returns (r: map<nat, Tables>)
      requires id !in m && forall k :: 0 <= k < |list| ==> list[k].schema == id
      ensures r == if list == [] then m else m[id := Filled(list)]
    {
      r := m;
      for j := 0 to |list|
        invariant r == if j == 0 then m else m[id := Filled(list[..j])]
      {
        var table := list[j];
        if table.schema !in r { r := r[table.schema := NoTables]; }
        var entry := r[table.schema];
        assert list[..j + 1][..j] == list[..j];
        r := r[table.schema := Tables(entry.byName[table.name := table], entry.byID[table.id := table])];
      }
      assert list[..|list|] == list;
    }

    /** loadTables: on success the memory is exactly what the keys say. */
    method LoadTables() returns (ok: bool)
      requires SchemasSynced(schemas, storage.disk.schemas) && DirsOk(storage.disk.dirs)
      requires storage.disk.dirs.Keys <= storage.disk.schemas.Keys
      modifies this`schemaTables, storage`misses
      ensures storage.misses == old(storage.misses) + if ok then 0 else 1
      ensures ok ==> Valid() && Reloaded() && forall i :: i in schemaTables ==> schemaTables[i].byID != map[]
    {
      ghost var dirs := storage.disk.dirs;
      schemaTables := map[];
      var rest := schemas.Keys;
      ghost var done: set<nat> := {};
      while rest != {}
        invariant rest <= schemas.Keys
        invariant LoadedSo(schemaTables, dirs, done)
        invariant Pending(schemas, rest, done) && storage.misses == old(storage.misses)
        decreases |rest|
      {
        var name := Pick(rest);
        var id := schemas[name].id;
        var tables := storage.ListTables(id);
        if tables.None? { return false; }
        SchemaOfListed(schemaTables, dirs, done, id, tables.value);
        ghost var before := schemaTables;
        schemaTables := AddListed(schemaTables, id, tables.value);
        LoadOne(before, dirs, done, id, tables.value, schemaTables);
        PendingLess(schemas, storage.disk.schemas, rest, done, name);
        rest := rest - {name};
        done := done + {id};
      }
      AllLoaded(schemas, storage.disk.schemas, schemaTables, dirs, done);
      ReloadExactly(schemaTables, dirs);
      return true;
    }

    /** getTable: the answer is the one the keys give. */
    method GetTable(schemaName: Name, tableName: Name) returns (found: bool, r: Option<Table>)
      requires Valid()
      ensures found <==> schemaName in schemas
      ensures found ==> var d := DirOf(storage.disk.dirs, schemas[schemaName].id);
        && (r.Some? <==> tableName in d.ids)
        && (r.Some? ==> d.ids[tableName] in d.tables && r.value == d.tables[d.ids[tableName]])
    {
      if schemaName !in schemas { return false, None; }
      var id := schemas[schemaName].id;
      assert Of(schemaTables, id) == Loaded(DirOf(storage.disk.dirs, id));
      if id !in schemaTables { return true, None; }
      var tables := schemaTables[id];
      return true, if tableName in tables.byName then Some(tables.byName[tableName]) else None;
    }

    /** CreateTable; `id` is what the allocator returned, None for an error. Apart from an unanswered request, storing
        fails exactly when the ID is in use. */
    method CreateTable(schemaName: Name, tableName: Name, id: Option<nat>, answered: bool) returns (r: Created)
      requires Valid()
      modifies this`schemaTables, storage
      ensures Valid()
      ensures r.SchemaNotFound? <==> schemaName !in schemas
      ensures schemaName in schemas ==>
        (r.AlreadyExists? <==> tableName in DirOf(old(storage.disk).dirs, schemas[schemaName].id).ids)
      ensures !r.SchemaNotFound? && !r.AlreadyExists? ==> (r.AllocFailed? <==> id.None?)
      ensures !r.SchemaNotFound? && !r.AlreadyExists? && id.Some? ==>
        (r.StorageFailed? <==> !answered || id.value in DirOf(old(storage.disk).dirs, schemas[schemaName].id).tables)
      ensures if r.NewTable? then
          && id == Some(r.table.id) && r.table.name == tableName
          && schemaName in schemas && r.table.schema == schemas[schemaName].id
          && storage.disk == old(storage.disk).(dirs := WithTable(old(storage.disk).dirs, r.table))
          && schemaTables.Keys == old(schemaTables).Keys + {r.table.schema}
          && (old(Reloaded()) ==> Reloaded())
        else storage.disk == old(storage.disk) && schemaTables == old(schemaTables)
    {
      var found, existing := GetTable(schemaName, tableName);
      if !found { return SchemaNotFound; }
      if existing.Some? { return AlreadyExists; }
      var schema := schemas[schemaName];
      if id.None? { return AllocFailed; }
      var table := Table(id.value, tableName, schema.id);
      ghost var mem, disk := schemaTables, storage.disk;
      var ok := storage.CreateTable(table, answered);
      if !ok { return StorageFailed; }
      CreateSynced(mem, disk.dirs, table);
      if schema.id !in schemaTables { schemaTables := schemaTables[schema.id := NoTables]; }
      var tables := schemaTables[schema.id];
      schemaTables := schemaTables[schema.id := Tables(tables.byName[tableName := table],
        tables.byID[table.id := table])];
      assert schemaTables == mem[schema.id := schemaTables[schema.id]];
      CreateReloaded(mem, disk.dirs, table, schemaTables);
      return NewTable(table);
    }

    /** DropTable. It dereferences a nil pointer exactly when the schema exists but has no entry in memory. The entries
        of memory stay, so that it is what a reload would build, if it was so before, exactly unless the only table of
        a schema is dropped. */
    method DropTable(schemaName: Name, tableName: Name) returns (r: Dropped)
      requires Valid()
      modifies this`schemaTables, storage
      ensures Valid()
      ensures r.NilTables? <==> schemaName in schemas && schemas[schemaName].id !in old(schemaTables)
      ensures storage.misses == old(storage.misses) + if r.DeleteFailed? then 1 else 0
      ensures if r.Done? && schemaName in schemas then
          var id := schemas[schemaName].id;
          && storage.disk == old(storage.disk).(dirs := WithoutTable(old(storage.disk).dirs, id, tableName))
          && schemaTables == Forgotten(old(schemaTables), id, tableName) && schemaTables.Keys == old(schemaTables).Keys
          && (old(Reloaded()) ==> (Reloaded() <==> !OnlyTable(DirOf(old(storage.disk).dirs, id), tableName)))
        else storage.disk == old(storage.disk) && schemaTables == old(schemaTables)
    {
      if schemaName !in schemas { return Done; }
      var schema := schemas[schemaName];
      if schema.id !in schemaTables { return NilTables; }
      assert Of(schemaTables, schema.id) == Loaded(DirOf(storage.disk.dirs, schema.id));
      if schemaTables == Rebuilt(storage.disk.dirs) {
        DropExactly(schemaTables, storage.disk.dirs, schema.id, tableName);
      }
      if tableName !in schemaTables[schema.id].byName { return Done; }
      var table := schemaTables[schema.id].byName[tableName];
      ghost var mem, disk := schemaTables, storage.disk;
      var ok := storage.DeleteTable(schema.id, tableName);
      if !ok { return DeleteFailed; }
      DeleteSynced(mem, disk.dirs, schema.id, tableName);
      var tables := schemaTables[schema.id];
      schemaTables := schemaTables[schema.id := Tables(tables.byName - {tableName}, tables.byID - {table.id})];
      return Done;
    }

    /** GetOrCreateSchema; None for a failed allocation or request. */
    method GetOrCreateSchema(schemaName: Name, id: Option<nat>) returns (r: Option<Schema>, existed: bool)
      requires Valid()
      modifies this`schemas, storage
      ensures Valid()
      ensures existed <==> schemaName in old(schemas)
      ensures r.Some? ==> schemas == old(schemas)[schemaName := r.value] && r.value.name == schemaName
      ensures existed || r.None? ==> schemas == old(schemas) && storage.disk == old(storage.disk)
      ensures !existed && r.Some? ==>
        && id == Some(r.value.id)
        && storage.disk == old(storage.disk).(schemas := old(storage.disk).schemas[r.value.id := r.value])
      ensures r.None? <==> !existed && (id.None? || storage.misses > old(storage.misses))
    {
      if schemaName in schemas { return Some(schemas[schemaName]), true; }
      if id.None? { return None, false; }
      var schema := Schema(id.value, schemaName);
      ghost var disk := storage.disk;
      var ok := storage.CreateSchema(schema);
      if !ok { return None, false; }
      SchemaAdded(schemas, disk.schemas, schema);
      schemas := schemas[schemaName := schema];
      return Some(schema), false;
    }
  }

  ghost predicate Pending(m: map<Name, Schema>, rest: set<Name>, done: set<nat>)
  {
    forall n :: n in m ==> (n in rest <==> m[n].id !in done)
  }

  lemma PendingLess(m: map<Name, Schema>, d: map<nat, Schema>, rest: set<Name>, done: set<nat>, name: Name)
    requires SchemasSynced(m, d) && Pending(m, rest, done) && name in rest && rest <= m.Keys
    ensures Pending(m, rest - {name}, done + {m[name].id}) && |rest - {name}| < |rest|
  {
    assert |rest - {name}| == |rest| - 1;
    forall n | n in m ensures n in rest - {name} <==> m[n].id !in done + {m[name].id} {
      OneNameEach(m, d, n, name);
    }
  }

  lemma SchemaOfListed(m: map<nat, Tables>, dirs: map<nat, Dir>, done: set<nat>, id: nat, list: seq<Table>)
    requires DirsOk(dirs) && LoadedSo(m, dirs, done) && id !in done && Lists(list, DirOf(dirs, id))
    ensures id !in m && forall k :: 0 <= k < |list| ==> list[k].schema == id
  {
    assert OneLoaded(m, dirs, done, id);
    assert Bijective(DirOf(dirs, id), id);
  }

  lemma OneNameEach(m: map<Name, Schema>, d: map<nat, Schema>, n: Name, k: Name)
    requires SchemasSynced(m, d) && n in m && k in m
    ensures m[n].id == m[k].id <==> n == k
  {}

  lemma AllLoaded(m: map<Name, Schema>, d: map<nat, Schema>, t: map<nat, Tables>, dirs: map<nat, Dir>, done: set<nat>)
    requires SchemasSynced(m, d) && DirsOk(dirs) && dirs.Keys <= d.Keys && LoadedSo(t, dirs, done)
    requires forall n :: n in m ==> m[n].id in done
    ensures TablesSynced(t, dirs)
  {
    forall i ensures Of(t, i) == Loaded(DirOf(dirs, i)) {
      assert OneLoaded(t, dirs, done, i);
      if i in dirs { assert d[i].name in m; }
    }
  }

  function WithTable(dirs: map<nat, Dir>, t: Table): map<nat, Dir>
  {
    var dir := DirOf(dirs, t.schema);
    dirs[t.schema := Dir(dir.ids[t.name := t.id], dir.tables[t.id := t])]
  }

  /** A name that is not there leaves everything as it is. */
  function WithoutTable(dirs: map<nat, Dir>, schema: nat, name: Name): map<nat, Dir>
  {
    var dir := DirOf(dirs, schema);
    if name !in dir.ids then dirs else dirs[schema := Dir(dir.ids - {name}, dir.tables - {dir.ids[name]})]
  }

  lemma CreateSynced(m: map<nat, Tables>, dirs: map<nat, Dir>, t: Table)
    requires TablesSynced(m, dirs)
    requires t.name !in DirOf(dirs, t.schema).ids && t.id !in DirOf(dirs, t.schema).tables
    ensures var was := Of(m, t.schema);
      TablesSynced(m[t.schema := Tables(was.byName[t.name := t], was.byID[t.id := t])], WithTable(dirs, t))
  {
    var dir := DirOf(dirs, t.schema);
    assert Bijective(dir, t.schema) && Of(m, t.schema) == Loaded(dir);
    LoadedCreate(dir, t);
    var next := Dir(dir.ids[t.name := t.id], dir.tables[t.id := t]);
    TablesChanged(m, dirs, t.schema, Loaded(next), next);
  }

  lemma DeleteSynced(m: map<nat, Tables>, dirs: map<nat, Dir>, schema: nat, name: Name)
    requires TablesSynced(m, dirs) && schema in m && name in DirOf(dirs, schema).ids
    ensures name in m[schema].byName
    ensures var was := m[schema];
      TablesSynced(m[schema := Tables(was.byName - {name}, was.byID - {was.byName[name].id})],
        WithoutTable(dirs, schema, name))
  {
    var dir := DirOf(dirs, schema);
    assert Bijective(dir, schema) && Of(m, schema) == Loaded(dir);
    LoadedDelete(dir, name, schema);
    var next := Dir(dir.ids - {name}, dir.tables - {dir.ids[name]});
    TablesChanged(m, dirs, schema, Loaded(next), next);
  }
}
