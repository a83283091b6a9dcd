/** The asset document as it runs: a definition, a version and a transaction flag that commands update in place. */
module AssetRuntime {
  import opened Bytes
  import opened AssetChanges
  import opened AssetHistory

  lemma {:induction false} UpdateAllOne(m: Entries, a: seq<Change>, c: Change, side: Side)
    ensures UpdateAll(m, a + [c], side) == Update(UpdateAll(m, a, side), c.id, SideOf(c, side))
    decreases |a|
  {
    if a == [] { assert a + [c] == [c] && [c][1..] == []; }
    else {
      assert (a + [c])[1..] == a[1..] + [c];
      UpdateAllOne(Update(m, a[0].id, SideOf(a[0], side)), a[1..], c, side);
    }
  }

  lemma {:induction false} DiffKeysOne(prior: Entries, next: Entries, keys: seq<Name>, k: Name)
    ensures DiffKeys(prior, next, keys + [k]) == DiffKeys(prior, next, keys)
      + (if Find(prior, k) == Find(next, k) then [] else [Change(k, Find(prior, k), Find(next, k))])
    decreases |keys|
  {
    hide Find;
    if keys == [] { assert keys + [k] == [k] && [k][1..] == []; }
    else {
      assert (keys + [k])[1..] == keys[1..] + [k];
      DiffKeysOne(prior, next, keys[1..], k);
    }
  }

  method IndexById(xs: seq<Record>) returns (m: Entries)
    ensures m == ById(xs)
  {
    m := [];
    var i := 0;
    while i < |xs|
      invariant 0 <= i <= |xs| && m == ById(xs[..i])
    {
      assert xs[..i + 1][..i] == xs[..i];
      m := Put(m, xs[i].id, xs[i]);
      i := i + 1;
    }
    assert xs[..i] == xs;
  }

  /** Sets and deletes in turn. */
  method UpdateRecords(m: Entries, updates: seq<Change>, side: Side) returns (records: Entries)
    ensures records == UpdateAll(m, updates, side)
  {
    records := m;
    var i := 0;
    while i < |updates|
      invariant 0 <= i <= |updates| && records == UpdateAll(m, updates[..i], side)
    {
      assert updates[..i + 1] == updates[..i] + [updates[i]];
      UpdateAllOne(m, updates[..i], updates[i], side);
      var value := SideOf(updates[i], side);
      if value.None? { records := Delete(records, updates[i].id); } else { records := Put(records, updates[i].id, value.value); }
      i := i + 1;
    }
    assert updates[..i] == updates;
  }

  method DiffDomain(before: seq<Record>, after: seq<Record>) returns (changes: seq<Change>)
    ensures changes == DiffRecords(before, after)
  {
    var prior := IndexById(before);
    var next := IndexById(after);
    var ids := AllKeys(prior, next);
    changes := [];
    var i := 0;
    while i < |ids|
      invariant 0 <= i <= |ids| && changes == DiffKeys(prior, next, ids[..i])
    {
      var left, right := Find(prior, ids[i]), Find(next, ids[i]);
      assert ids[..i + 1] == ids[..i] + [ids[i]];
      DiffKeysOne(prior, next, ids[..i], ids[i]);
      if left != right { changes := changes + [Change(ids[i], left, right)]; }
      i := i + 1;
    }
    assert ids[..i] == ids;
  }

  /** The changes of the domains that have any. */
  function DiffOf(before: Definition, after: Definition, ds: seq<Name>): map<Name, seq<Change>> {
    map d | d in ds && DiffRecords(RecordsOf(before, d), RecordsOf(after, d)) != [] :: DiffRecords(RecordsOf(before, d), RecordsOf(after, d))
  }

  lemma DiffOfOne(before: Definition, after: Definition, ds: seq<Name>, d: Name)
    ensures var changes := DiffRecords(RecordsOf(before, d), RecordsOf(after, d));
      DiffOf(before, after, ds + [d]) == if changes == [] then DiffOf(before, after, ds) else DiffOf(before, after, ds)[d := changes]
  {
    hide DiffRecords, RecordsOf;
  }

  method DiffAssetSnapshots(before: Definition, after: Definition) returns (c: ChangeSet)
    ensures c == Diff(before, after)
  {
    hide DiffRecords;
    var domains: map<Name, seq<Change>> := map[];
    var i := 0;
    while i < |Domains|
      invariant 0 <= i <= |Domains| && domains == DiffOf(before, after, Domains[..i])
    {
      var d := Domains[i];
      var changes := DiffDomain(RecordsOf(before, d), RecordsOf(after, d));
      assert Domains[..i + 1] == Domains[..i] + [d];
      DiffOfOne(before, after, Domains[..i], d);
      if changes != [] { domains := domains[d := changes]; }
      i := i + 1;
    }
    assert Domains[..i] == Domains;
    c := ChangeSet(domains, if before.normalization == after.normalization then None else Some((before.normalization, after.normalization)));
  }

  class AssetDocument {
    const env: Env
    var definition: Definition
    var version: nat
    var inTransaction: bool

    function View(): Doc
      reads this
    {
      Doc(definition, version, inTransaction)
    }

    /** A definition that the validator accepts both as given and in normal form, or nothing. */
    constructor (env: Env, definition: Definition)
      ensures this.env == env && View() == Doc(Normalize(env, definition), 0, false)
    {
      this.env := env;
      this.definition := Normalize(env, definition);
      version, inTransaction := 0, false;
    }

    method Notify()
      modifies `version
      ensures version == old(version) + 1
    {
      version := version + 1;
    }

    /** Sets and deletes records of a domain by id. */
    method ReplaceDomainUpdates(domain: Name, updates: seq<Change>, side: Side, notify: bool) returns (threw: bool)
      modifies this
      ensures Ending(View(), threw) == Do(env, old(View()), ReplaceUpdates(domain, updates, side, notify))
    {
      hide Normalize;
      if domain !in Domains { return true; }
      var records := IndexById(RecordsOf(definition, domain));
      records := UpdateRecords(records, updates, side);
      definition := Normalize(env, definition.(records := definition.records[domain := Values(records)]));
      if notify { Notify(); }
      return false;
    }

    method ReplaceDomainList(domain: Name, records: seq<Record>, notify: bool) returns (threw: bool)
      modifies this
      ensures Ending(View(), threw) == Do(env, old(View()), Op.ReplaceList(domain, records, notify))
    {
      if domain !in Domains { return true; }
      definition := Normalize(env, definition.(records := definition.records[domain := records]));
      if notify { Notify(); }
      return false;
    }

    method SetScalar(name: Name, value: string, notify: bool) returns (threw: bool)
      modifies this
      ensures Ending(View(), threw) == Do(env, old(View()), Op.SetScalar(name, value, notify))
    {
      if name != "normalization" { return true; }
      definition := Normalize(env, definition.(normalization := value));
      if notify { Notify(); }
      return false;
    }

    method ReplaceDefinition(candidate: Definition, valid: bool, notify: bool) returns (ok: bool)
      modifies this
      ensures definition == (if valid then Normalize(env, candidate) else old(definition)) && inTransaction == old(inTransaction)
      ensures version == old(version) + if valid && notify then 1 else 0
      ensures ok == valid && Ending(View(), false) == Do(env, old(View()), Op.ReplaceDefinition(candidate, valid, notify))
    {
      if !valid { return false; }
      definition := Normalize(env, candidate);
      if notify { Notify(); }
      return true;
    }

    method RestoreSnapshot(snapshot: Definition, notify: bool)
      modifies this
      ensures definition == Normalize(env, snapshot) && inTransaction == old(inTransaction) && version == old(version) + if notify then 1 else 0
      ensures Ending(View(), false) == Do(env, old(View()), Op.RestoreSnapshot(snapshot, notify))
    {
      definition := Normalize(env, snapshot);
      if notify { Notify(); }
    }

    method Run(op: Op) returns (threw: bool)
      modifies this
      ensures Ending(View(), threw) == Do(env, old(View()), op)
      decreases op
    {
      hide Normalize;
      threw := false;
      match op
      case ReplaceUpdates(domain, updates, side, notify) => threw := ReplaceDomainUpdates(domain, updates, side, notify);
      case ReplaceList(domain, records, notify) => threw := ReplaceDomainList(domain, records, notify);
      case SetScalar(name, value, notify) => threw := SetScalar(name, value, notify);
      case ReplaceDefinition(candidate, valid, notify) => var _ := ReplaceDefinition(candidate, valid, notify);
      case RestoreSnapshot(snapshot, notify) => RestoreSnapshot(snapshot, notify);
      case Fail => threw := true;
      case Nested(ops) => threw := Transaction(ops);
      case Attempt(ops) => var _ := RunAll(ops);
    }

    /** The callback of a transaction: it stops where an operation throws. */
    method RunAll(ops: seq<Op>) returns (threw: bool)
      modifies this
      ensures Ending(View(), threw) == DoAll(env, old(View()), ops)
      decreases ops, 0
    {
      if ops == [] { return false; }
      threw := Run(ops[0]);
      if !threw { threw := RunAll(ops[1..]); }
    }

    /** Runs the callback; if it throws, the definition is put back. Within a transaction it just runs. */
    method Transaction(ops: seq<Op>) returns (threw: bool)
      modifies this
      ensures Ending(View(), threw) == if old(inTransaction) then DoAll(env, old(View()), ops) else Transact(env, old(View()), ops)
      decreases ops, 1
    {
      hide DoAll, Diff;
      if inTransaction { threw := RunAll(ops); return; }
      var before := definition;
      inTransaction := true;
      threw := RunAll(ops);
      if threw { definition := before; }
      inTransaction := false;
      if !threw {
        var changes := DiffAssetSnapshots(before, definition);
        if changes.domains != map[] || changes.scalar.Some? { Notify(); }
      }
    }

    method ApplyAssetChangeSet(c: ChangeSet, side: Side) returns (threw: bool)
      requires !inTransaction
      modifies this
      ensures !threw && definition == Apply(env, old(definition), c, side) && !inTransaction
    {
      OpsOfApply(env, View(), c, side);
      threw := Transaction(OpsOf(c, side));
    }
  }
}
