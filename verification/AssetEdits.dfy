/** What the edits of an asset document leave behind: restored and replaced definitions, lists, updates by id, and their order. */
module AssetEdits {
  import opened Bytes
  import opened AssetChanges
  import opened AssetUndo
  import opened AssetHistory

  /* ---------- the order of records ---------- */

  /** A part comes before another by its parent, then by its order, then by its id; no parent counts as an empty one. */
  ghost predicate PartBefore(env: Env, x: Record, y: Record) {
    var p, q := if x.parent == None then "" else x.parent.value, if y.parent == None then "" else y.parent.value;
    env.collate(p, q) < 0 || (env.collate(p, q) == 0 && (x.order < y.order || (x.order == y.order && env.collate(x.id, y.id) <= 0)))
  }

  ghost predicate InOrder(env: Env, d: Name, xs: seq<Record>) {
    forall i, j :: 0 <= i < j < |xs| ==> if d == "parts" then PartBefore(env, xs[i], xs[j]) else env.collate(xs[i].id, xs[j].id) <= 0
  }

  lemma SortedIsInOrder(env: Env, d: Name, xs: seq<Record>)
    ensures Sorted(env, d, xs) <==> InOrder(env, d, xs)
  {
    forall x, y ensures Compare(env, d, x, y) <= 0 <==> if d == "parts" then PartBefore(env, x, y) else env.collate(x.id, y.id) <= 0 { }
    hide Compare, PartBefore;
  }

  /** What normalization makes of a list: its records, each normalized at its place, in order. */
  ghost predicate IsNormalized(env: Env, d: Name, given: seq<Record>, xs: seq<Record>) {
    InOrder(env, d, xs) && multiset(xs) == multiset(seq(|given|, i requires 0 <= i < |given| => NormRecord(env, d, given[i], i)))
  }

  /** A normalized definition has the five domains, each with the records handed over for it, normalized and in order. */
  lemma NormalizedIs(env: Env, def: Definition)
    requires Collates(env)
    ensures var n := Normalize(env, def);
      && n.records.Keys == {"sources", "parts", "materials", "lidarProxies", "collisionProxies"}
      && n.normalization == env.normScalar(def.normalization)
      && forall d :: d in n.records ==> IsNormalized(env, d, RecordsOf(def, d), n.records[d])
  {
    hide Sort, NormRecord, Sorted, InOrder;
    forall d | d in Domains ensures IsNormalized(env, d, RecordsOf(def, d), Normalize(env, def).records[d]) {
      var xs := NormRecords(env, d, RecordsOf(def, d));
      SortSorts(env, d, xs);
      SortedIsInOrder(env, d, Sort(env, d, xs));
    }
  }

  predicate Blanks(s: Name) { forall i :: 0 <= i < |s| ==> IsSpace(s[i]) }

  /** The text without the blanks around it. */
  ghost predicate IsTrimmed(s: Name, t: Name) {
    && (t != "" ==> !IsSpace(t[0]) && !IsSpace(t[|t| - 1]))
    && exists front: Name, back: Name :: s == front + t + back && Blanks(front) && Blanks(back)
  }

  lemma {:induction false} TrimStartIs(s: Name) returns (front: Name)
    ensures s == front + TrimStart(s) && Blanks(front) && (TrimStart(s) != "" ==> !IsSpace(TrimStart(s)[0]))
  {
    if s != "" && IsSpace(s[0]) {
      front := TrimStartIs(s[1..]);
      assert s == [s[0]] + s[1..];
      front := [s[0]] + front;
    } else { front := ""; }
  }

  lemma {:induction false} TrimEndIs(s: Name) returns (back: Name)
    ensures s == TrimEnd(s) + back && Blanks(back) && (TrimEnd(s) != "" ==> !IsSpace(TrimEnd(s)[|TrimEnd(s)| - 1]) && TrimEnd(s)[0] == s[0])
  {
    if s != "" && IsSpace(s[|s| - 1]) {
      back := TrimEndIs(s[..|s| - 1]);
      assert s == s[..|s| - 1] + [s[|s| - 1]];
      back := back + [s[|s| - 1]];
    } else { back := ""; }
  }

  lemma TrimmedIs(s: Name)
    ensures IsTrimmed(s, Trim(s))
  {
    hide IsSpace;
    var front := TrimStartIs(s);
    var back := TrimEndIs(TrimStart(s));
    assert s == front + Trim(s) + back;
  }

  /** The normal form of a part has no parent if it was given none or an empty one, and else the trimmed one, were it nothing. */
  lemma ParentIs(env: Env, r: Record, index: nat)
    ensures var p := NormRecord(env, "parts", r, index).parent;
      && (r.parent.None? || r.parent.value == "" <==> p.None?)
      && (p.Some? ==> IsTrimmed(r.parent.value, p.value))
  {
    hide Trim, IsTrimmed;
    if r.parent.Some? { TrimmedIs(r.parent.value); }
  }

  /* ---------- whole definitions ---------- */

  lemma SettledIsItself(env: Env, def: Definition)
    requires Collates(env) && Settled(env, def)
    ensures Normalize(env, def) == def
  {
    hide RipeDef, Settled;
    SettledIsRipe(env, def);
    NormalDef(env, def);
  }

  /** A valid definition replaces the document's; in normal form it does so as it is. An invalid one changes nothing. */
  lemma ReplacedIs(env: Env, doc: Doc, candidate: Definition, valid: bool, notify: bool)
    requires Collates(env)
    ensures var r := Do(env, doc, ReplaceDefinition(candidate, valid, notify));
      && !r.threw && r.doc.inTransaction == doc.inTransaction
      && r.doc.version == doc.version + (if valid && notify then 1 else 0)
      && (!valid ==> r.doc.definition == doc.definition)
      && (valid ==> r.doc.definition == Normalize(env, candidate))
      && (valid && Settled(env, candidate) ==> r.doc.definition == candidate)
  {
    hide Normalize, Settled;
    if Settled(env, candidate) { SettledIsItself(env, candidate); }
  }

  lemma RestoredIs(env: Env, doc: Doc, snapshot: Definition, notify: bool)
    requires Collates(env)
    ensures var r := Do(env, doc, RestoreSnapshot(snapshot, notify));
      && !r.threw && r.doc.inTransaction == doc.inTransaction && r.doc.version == doc.version + (if notify then 1 else 0)
      && r.doc.definition == Normalize(env, snapshot)
      && (Settled(env, snapshot) ==> r.doc.definition == snapshot)
  {
    hide Normalize, Settled;
    if Settled(env, snapshot) { SettledIsItself(env, snapshot); }
  }

  /** Taking a snapshot, doing anything, and restoring gives the definition of the snapshot exactly if that is in normal form. */
  lemma CaptureRestoresIff(env: Env, doc: Doc, ops: seq<Op>, notify: bool)
    requires Collates(env) && RipeDef(env, doc.definition)
    ensures Do(env, DoAll(env, doc, ops).doc, RestoreSnapshot(doc.definition, notify)).doc.definition == doc.definition
      <==> Settled(env, doc.definition)
  {
    hide Normalize, Settled, RipeDef, DoAll;
    NormalDef(env, doc.definition);
    RestoredIs(env, DoAll(env, doc, ops).doc, doc.definition, notify);
  }

  /* ---------- updates by id ---------- */

  /** The last update for an id, if there is one: a record, or nothing if it deletes. */
  function LastSet(updates: seq<Change>, side: Side, id: Name): Option<Option<Record>> {
    if updates == [] then None
    else
      var c := updates[|updates| - 1];
      if c.id == id then Some(if side.Before? then c.before else c.after) else LastSet(updates[..|updates| - 1], side, id)
  }

  /** What the updates leave under an id: the last record set, nothing if the last update deleted it, and else what was there. */
  function Left(updates: seq<Change>, side: Side, was: Option<Record>, id: Name): Option<Record> {
    match LastSet(updates, side, id) case Some(r) => r case None => was
  }

  lemma {:induction false} FindPut(m: Entries, k: Name, v: Record, o: Name)
    ensures Find(Put(m, k, v), o) == if o == k then Some(v) else Find(m, o)
  {
    if m != [] && m[0].0 != k {
      FindPut(m[1..], k, v, o);
      assert Put(m, k, v)[1..] == Put(m[1..], k, v);
    } else if m != [] {
      assert Put(m, k, v)[1..] == m[1..];
    }
  }

  lemma {:induction false} PutKeepsDistinct(m: Entries, k: Name, v: Record)
    requires DistinctKeys(m)
    ensures DistinctKeys(Put(m, k, v))
  {
    if m != [] && m[0].0 != k {
      var rest, whole := Put(m[1..], k, v), Put(m, k, v);
      assert whole == [m[0]] + rest;
      PutKeepsDistinct(m[1..], k, v);
      hide Put;
      forall i | 0 <= i < |rest| ensures rest[i].0 != m[0].0 {
        PutFrom(m[1..], k, v, rest[i]);
        if rest[i] in m[1..] { var j :| 0 <= j < |m[1..]| && m[1..][j] == rest[i]; assert m[j + 1] == rest[i]; }
      }
      InFrontDistinct(m[0], rest);
    }
  }

  lemma InFrontDistinct(e: (Name, Record), rest: Entries)
    requires DistinctKeys(rest) && forall i :: 0 <= i < |rest| ==> rest[i].0 != e.0
    ensures DistinctKeys([e] + rest)
  {
  }

  lemma {:induction false} DeleteKeepsDistinct(m: Entries, k: Name)
    requires DistinctKeys(m)
    ensures DistinctKeys(Delete(m, k)) && forall e :: e in Delete(m, k) ==> e in m && e.0 != k
  {
    if m != [] {
      if m[0].0 != k { DeleteKeepsDistinct(m[1..], k); }
      assert m == [m[0]] + m[1..];
    }
  }

  lemma {:induction false} FindDelete(m: Entries, k: Name, o: Name)
    requires DistinctKeys(m)
    ensures Find(Delete(m, k), o) == if o == k then None else Find(m, o)
  {
    if m != [] {
      if m[0].0 != k { FindDelete(m[1..], k, o); assert Delete(m, k)[1..] == Delete(m[1..], k); }
      else if o == k { NotFound(m[1..], k); }
    }
  }

  lemma {:induction false} NotFound(m: Entries, k: Name)
    requires forall i :: 0 <= i < |m| ==> m[i].0 != k
    ensures Find(m, k) == None
  {
    if m != [] { NotFound(m[1..], k); }
  }

  lemma UpdateFinds(m: Entries, k: Name, v: Option<Record>, o: Name)
    requires DistinctKeys(m)
    ensures DistinctKeys(Update(m, k, v)) && Find(Update(m, k, v), o) == if o == k then v else Find(m, o)
  {
    hide DistinctKeys, Find, Put, Delete;
    if v.Some? { FindPut(m, k, v.value, o); PutKeepsDistinct(m, k, v.value); }
    else { FindDelete(m, k, o); DeleteKeepsDistinct(m, k); }
  }

  lemma {:induction false} LastSetFirst(updates: seq<Change>, side: Side, id: Name)
    requires updates != []
    ensures LastSet(updates, side, id)
      == if LastSet(updates[1..], side, id).Some? then LastSet(updates[1..], side, id)
         else if updates[0].id == id then Some(SideOf(updates[0], side)) else None
    decreases |updates|
  {
    if |updates| > 1 {
      var front := updates[..|updates| - 1];
      LastSetFirst(front, side, id);
      assert updates[1..][..|updates| - 2] == front[1..] && updates[1..][|updates| - 2] == updates[|updates| - 1];
    }
  }

  /** Whatever the updates are, the map holds each id at most once, with what the last update for it left. */
  lemma {:induction false} UpdatesLeave(m: Entries, updates: seq<Change>, side: Side, id: Name)
    requires DistinctKeys(m)
    ensures DistinctKeys(UpdateAll(m, updates, side)) && Find(UpdateAll(m, updates, side), id) == Left(updates, side, Find(m, id), id)
    decreases |updates|
  {
    hide Find, DistinctKeys, Update;
    if updates != [] {
      var c := updates[0];
      UpdateFinds(m, c.id, SideOf(c, side), id);
      UpdatesLeave(Update(m, c.id, SideOf(c, side)), updates[1..], side, id);
      LastSetFirst(updates, side, id);
    }
  }

  lemma {:induction false} LastIsFound(xs: seq<Record>, id: Name)
    ensures Keyed(ById(xs)) && Find(ById(xs), id) == LastWith(xs, id)
  {
    ByIdIs(xs);
  }

  /** The updates set records under their own ids, and such that normalization leaves as they are. */
  ghost predicate Tidy(env: Env, d: Name, updates: seq<Change>, side: Side) {
    forall c :: c in updates && SideOf(c, side).Some? ==> SideOf(c, side).value.id == c.id && Fixed(env, d, SideOf(c, side).value)
  }

  /** Each id once, in order, with what the updates left under it. */
  ghost predicate Updated(env: Env, d: Name, was: seq<Record>, updates: seq<Change>, side: Side, xs: seq<Record>) {
    InOrder(env, d, xs) && Unique(xs) && forall id :: LastWith(xs, id) == Left(updates, side, LastWith(was, id), id)
  }

  lemma {:induction false} TidyKeepsKeys(env: Env, d: Name, m: Entries, updates: seq<Change>, side: Side)
    requires Keyed(m) && Tidy(env, d, updates, side)
    ensures Keyed(UpdateAll(m, updates, side))
    decreases |updates|
  {
    hide Keyed, Fixed, Update;
    if updates != [] {
      var c := updates[0];
      assert c in updates;
      UpdateIs(m, c.id, SideOf(c, side));
      TidyKeepsKeys(env, d, Update(m, c.id, SideOf(c, side)), updates[1..], side);
    }
  }

  lemma {:induction false} LastSetIsOne(updates: seq<Change>, side: Side, id: Name)
    ensures LastSet(updates, side, id).Some? ==> exists c :: c in updates && c.id == id && LastSet(updates, side, id) == Some(SideOf(c, side))
  {
    if updates != [] {
      var c, front := updates[|updates| - 1], updates[..|updates| - 1];
      LastSetIsOne(front, side, id);
      if c.id == id { assert c in updates && LastSet(updates, side, id) == Some(SideOf(c, side)); }
    }
  }

  lemma LeftIsFixed(env: Env, d: Name, was: seq<Record>, updates: seq<Change>, side: Side, id: Name)
    requires Tidy(env, d, updates, side) && forall r :: r in was ==> Fixed(env, d, r)
    ensures var r := Left(updates, side, LastWith(was, id), id); r.Some? ==> Fixed(env, d, r.value)
  {
    hide Fixed, LastSet, LastWith;
    LastSetIsOne(updates, side, id);
    LastWithIs(was, id);
  }

  lemma FixedStays(env: Env, d: Name, xs: seq<Record>)
    requires forall r :: r in xs ==> Fixed(env, d, r)
    ensures NormRecords(env, d, xs) == xs
  {
    hide NormRecord;
    forall i | 0 <= i < |xs| ensures NormRecords(env, d, xs)[i] == xs[i] { assert Fixed(env, d, xs[i]); }
  }

  lemma RestoredDomain(env: Env, d: Name, was: seq<Record>, updates: seq<Change>, side: Side)
    requires Collates(env) && Tidy(env, d, updates, side) && forall r :: r in was ==> Fixed(env, d, r)
    ensures Updated(env, d, was, updates, side, Sort(env, d, NormRecords(env, d, Values(UpdateAll(ById(was), updates, side)))))
  {
    hide ById, UpdateAll, Find, LastWith, Left, Fixed, Tidy, Keyed, Sort, Compare, Values, InOrder, Sorted;
    var m := UpdateAll(ById(was), updates, side);
    ByIdIs(was);
    TidyKeepsKeys(env, d, ById(was), updates, side);
    ValuesAre(m);
    var values := Values(m);
    forall id ensures Find(m, id) == Left(updates, side, LastWith(was, id), id) { FindsLeft(was, updates, side, id); }
    forall r | r in values ensures Fixed(env, d, r) { LeftIsFixed(env, d, was, updates, side, r.id); }
    FixedStays(env, d, values);
    SortSorts(env, d, values);
    var xs := Sort(env, d, values);
    UniqueIsBag(xs, values);
    SortedIsInOrder(env, d, xs);
    forall id ensures LastWith(xs, id) == Left(updates, side, LastWith(was, id), id) {
      SameLast(xs, values, id);
      LastOfValues(m, id);
    }
  }

  lemma FindsLeft(was: seq<Record>, updates: seq<Change>, side: Side, id: Name)
    ensures Find(UpdateAll(ById(was), updates, side), id) == Left(updates, side, LastWith(was, id), id)
  {
    LastIsFound(was, id);
    KeyedIsDistinct(ById(was));
    hide Find, ById, UpdateAll, LastWith, Left, DistinctKeys;
    UpdatesLeave(ById(was), updates, side, id);
  }

  lemma KeyedIsDistinct(m: Entries)
    requires Keyed(m)
    ensures DistinctKeys(m)
  {
  }

  /** Updates by id change one domain and nothing else: there each id has what the last update left under it. */
  lemma UpdatedIs(env: Env, doc: Doc, domain: Name, updates: seq<Change>, side: Side, notify: bool)
    requires Collates(env) && Settled(env, doc.definition) && domain in Domains && Tidy(env, domain, updates, side)
    ensures var r := Do(env, doc, ReplaceUpdates(domain, updates, side, notify));
      && !r.threw && r.doc.inTransaction == doc.inTransaction && r.doc.version == doc.version + (if notify then 1 else 0)
      && Updated(env, domain, RecordsOf(doc.definition, domain), updates, side, RecordsOf(r.doc.definition, domain))
      && (forall e :: e in Domains && e != domain ==> RecordsOf(r.doc.definition, e) == RecordsOf(doc.definition, e))
      && r.doc.definition.normalization == doc.definition.normalization
  {
    hide Sort, Updated, Tidy, UpdateAll, ById, Values, RipeDef, Normalize, Fixed, NormRecords, Sorted;
    var def := doc.definition;
    SettledIsRipe(env, def);
    SettledRecords(env, def, domain);
    RestoredDomain(env, domain, RecordsOf(def, domain), updates, side);
    var xs := Values(UpdateAll(ById(RecordsOf(def, domain)), updates, side));
    ReplaceIs(env, def, domain, xs, domain);
    forall e | e in Domains && e != domain ensures RecordsOf(Replace(env, def, domain, xs), e) == RecordsOf(def, e) {
      ReplaceIs(env, def, domain, xs, e);
      SettledListStays(env, def, e);
    }
  }

  lemma SettledRecords(env: Env, def: Definition, d: Name)
    requires Settled(env, def) && d in Domains
    ensures forall r :: r in RecordsOf(def, d) ==> Fixed(env, d, r)
  {
    hide Fixed, Sorted;
  }

  lemma SettledListStays(env: Env, def: Definition, d: Name)
    requires Collates(env) && Settled(env, def) && d in Domains
    ensures SettleList(env, d, RecordsOf(def, d)) == RecordsOf(def, d)
  {
    SettledIsRipe(env, def);
    assert SettledList(env, d, RecordsOf(def, d)) && RipeList(env, d, RecordsOf(def, d));
    SettledIffFixed(env, d, RecordsOf(def, d));
  }

  /**
   * Whatever the updates set: the domain holds, normalized and in order, one record for each key that they leave something
   * under, and it is what they leave.
   */
  lemma UpdateIsNormalized(env: Env, def: Definition, domain: Name, updates: seq<Change>, side: Side)
    requires Collates(env) && domain in Domains
    ensures exists m: Entries ::
      && DistinctKeys(m) && (forall id :: Find(m, id) == Left(updates, side, LastWith(RecordsOf(def, domain), id), id))
      && IsNormalized(env, domain, Values(m), RecordsOf(ReplaceChanged(env, def, domain, updates, side), domain))
  {
    hide Find, ById, UpdateAll, LastWith, Left, Normalize, IsNormalized, Values, DistinctKeys;
    var was := RecordsOf(def, domain);
    var m := UpdateAll(ById(was), updates, side);
    LastIsFound(was, "");
    KeyedIsDistinct(ById(was));
    UpdatesLeave(ById(was), updates, side, "");
    forall id ensures Find(m, id) == Left(updates, side, LastWith(was, id), id) { FindsLeft(was, updates, side, id); }
    var given := def.(records := def.records[domain := Values(m)]);
    NormalizedIs(env, given);
    assert RecordsOf(given, domain) == Values(m);
  }

  /** A list that replaces a domain is normalized and sorted; the other domains and the scalar stay. */
  lemma ListedIs(env: Env, doc: Doc, domain: Name, records: seq<Record>, notify: bool)
    requires Collates(env) && Settled(env, doc.definition) && domain in Domains
    ensures var r := Do(env, doc, ReplaceList(domain, records, notify));
      && !r.threw && r.doc.inTransaction == doc.inTransaction && r.doc.version == doc.version + (if notify then 1 else 0)
      && IsNormalized(env, domain, records, RecordsOf(r.doc.definition, domain))
      && (forall e :: e in Domains && e != domain ==> RecordsOf(r.doc.definition, e) == RecordsOf(doc.definition, e))
      && r.doc.definition.normalization == doc.definition.normalization
  {
    hide Sort, RipeDef, Normalize, Fixed, NormRecords, Sorted, IsNormalized;
    var def := doc.definition;
    SettledIsRipe(env, def);
    var given := def.(records := def.records[domain := records]);
    NormalizedIs(env, given);
    assert RecordsOf(given, domain) == records;
    forall e | e in Domains && e != domain ensures RecordsOf(Replace(env, def, domain, records), e) == RecordsOf(def, e) {
      ReplaceIs(env, def, domain, records, e);
      SettledListStays(env, def, e);
    }
    ReplaceIs(env, def, domain, records, domain);
  }

  /** Setting the scalar sets it, normalized, and leaves every domain. */
  lemma ScalarIsSet(env: Env, doc: Doc, value: string, notify: bool)
    requires Collates(env) && Settled(env, doc.definition)
    ensures var r := Do(env, doc, Op.SetScalar("normalization", value, notify));
      && !r.threw && r.doc.inTransaction == doc.inTransaction && r.doc.version == doc.version + (if notify then 1 else 0)
      && r.doc.definition == doc.definition.(normalization := env.normScalar(value))
  {
    hide Sort, RipeList, Fixed, NormRecords, Sorted, SettledList;
    var def := doc.definition;
    var next := def.(normalization := value);
    SettledIsRipe(env, def);
    forall d | d in Domains ensures Sort(env, d, NormRecords(env, d, RecordsOf(next, d))) == RecordsOf(def, d) {
      assert RecordsOf(next, d) == RecordsOf(def, d);
      RipeIn(env, def, d);
      NormalList(env, d, RecordsOf(def, d));
      SettledListStays(env, def, d);
    }
    assert Normalize(env, next).records == def.records;
  }

  /** Operations on a domain or a scalar that the document does not have throw and change nothing. */
  lemma UnknownThrows(env: Env, doc: Doc, name: Name, updates: seq<Change>, side: Side, records: seq<Record>, value: string, notify: bool)
    requires name !in {"sources", "parts", "materials", "lidarProxies", "collisionProxies"}
    ensures Do(env, doc, ReplaceUpdates(name, updates, side, notify)) == Do(env, doc, ReplaceList(name, records, notify)) == Ending(doc, true)
    ensures name != "normalization" ==> Do(env, doc, Op.SetScalar(name, value, notify)) == Ending(doc, true)
  {
  }
}
