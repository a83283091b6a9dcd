/** Asset snapshots, their normal form, and the change sets between them. */
module AssetChanges {
  import opened Bytes

  type Name = string

  /** A record of a domain: its id, what its order depends on, and the rest of it as text. */
  datatype Record = Record(id: Name, parent: Option<Name>, order: int, body: string)

  datatype Definition = Definition(records: map<Name, seq<Record>>, normalization: string)

  /**
   * What is taken as given: the collation of names, the normal form of a record but for its parent (it may depend on the index
   * of the record), and that of the root normalization.
   */
  datatype Env = Env(collate: (Name, Name) -> int, tidy: (Name, Record, nat) -> Record, normScalar: string -> string)

  const Domains: seq<Name> := ["sources", "parts", "materials", "lidarProxies", "collisionProxies"]

  ghost predicate Collates(env: Env) {
    && (forall a, b :: env.collate(a, b) == 0 <==> a == b)
    && (forall a, b :: env.collate(a, b) < 0 <==> env.collate(b, a) > 0)
    && (forall a, b, c :: env.collate(a, b) < 0 && env.collate(b, c) < 0 ==> env.collate(a, c) < 0)
  }

  /* ---------- order ---------- */

  /** A part without a parent sorts like one with an empty parent. */
  function ParentKey(r: Record): Name {
    if r.parent.Some? then r.parent.value else ""
  }

  function Compare(env: Env, domain: Name, x: Record, y: Record): int {
    if domain == "parts" then
      var c := env.collate(ParentKey(x), ParentKey(y));
      if c != 0 then c else if x.order != y.order then x.order - y.order else env.collate(x.id, y.id)
    else env.collate(x.id, y.id)
  }

  function Insert(env: Env, domain: Name, x: Record, xs: seq<Record>): seq<Record> {
    if xs == [] || Compare(env, domain, x, xs[0]) < 0 then [x] + xs else [xs[0]] + Insert(env, domain, x, xs[1..])
  }

  /** The stable sort of the records of a domain. */
  function Sort(env: Env, domain: Name, xs: seq<Record>): seq<Record> {
    if xs == [] then [] else Insert(env, domain, xs[|xs| - 1], Sort(env, domain, xs[..|xs| - 1]))
  }

  ghost predicate Sorted(env: Env, domain: Name, xs: seq<Record>) {
    forall i, j :: 0 <= i < j < |xs| ==> Compare(env, domain, xs[i], xs[j]) <= 0
  }

  ghost predicate Unique(xs: seq<Record>) {
    forall i, j :: 0 <= i < j < |xs| ==> xs[i].id != xs[j].id
  }

  /* ---------- normal form ---------- */

  predicate IsSpace(c: char) {
    || '\t' <= c <= '\r' || c == ' ' || c == '\U{A0}' || c == '\U{1680}' || '\U{2000}' <= c <= '\U{200A}'
    || c == '\U{2028}' || c == '\U{2029}' || c == '\U{202F}' || c == '\U{205F}' || c == '\U{3000}' || c == '\U{FEFF}'
  }

  function TrimStart(s: Name): Name {
    if s != "" && IsSpace(s[0]) then TrimStart(s[1..]) else s
  }

  function TrimEnd(s: Name): Name {
    if s != "" && IsSpace(s[|s| - 1]) then TrimEnd(s[..|s| - 1]) else s
  }

  function Trim(s: Name): Name { TrimEnd(TrimStart(s)) }

  /** No parent and an empty one are the same; any other is trimmed, even if nothing of it is left. */
  function NormParent(parent: Option<Name>): Option<Name> {
    if parent.None? || parent.value == "" then None else Some(Trim(parent.value))
  }

  function NormRecord(env: Env, domain: Name, r: Record, index: nat): Record {
    var tidied := env.tidy(domain, r, index);
    if domain == "parts" then tidied.(parent := NormParent(r.parent)) else tidied
  }

  function NormRecords(env: Env, domain: Name, xs: seq<Record>): seq<Record> {
    seq(|xs|, i requires 0 <= i < |xs| => NormRecord(env, domain, xs[i], i))
  }

  function RecordsOf(def: Definition, domain: Name): seq<Record> {
    if domain in def.records then def.records[domain] else []
  }

  function Normalize(env: Env, def: Definition): Definition {
    Definition(map d | d in Domains :: Sort(env, d, NormRecords(env, d, RecordsOf(def, d))), env.normScalar(def.normalization))
  }

  /** Normalization leaves the record as it is. */
  ghost predicate Fixed(env: Env, domain: Name, r: Record) {
    forall i: nat :: NormRecord(env, domain, r, i) == r
  }

  /** One more normalization, at whatever index, gives the same fixed record, and one that sorts like this. */
  ghost predicate Ripe(env: Env, domain: Name, r: Record) {
    var s := NormRecord(env, domain, r, 0);
    && (forall i: nat :: NormRecord(env, domain, r, i) == s)
    && Fixed(env, domain, s) && s.id == r.id && s.order == r.order && ParentKey(s) == ParentKey(r)
  }

  ghost predicate SettledList(env: Env, domain: Name, xs: seq<Record>) {
    Sorted(env, domain, xs) && forall r :: r in xs ==> Fixed(env, domain, r)
  }

  ghost predicate RipeList(env: Env, domain: Name, xs: seq<Record>) {
    Sorted(env, domain, xs) && forall r :: r in xs ==> Ripe(env, domain, r)
  }

  ghost predicate InDomains(env: Env, def: Definition) {
    def.records.Keys == (set d | d in Domains) && env.normScalar(def.normalization) == def.normalization
  }

  /** The snapshot is in normal form: normalization leaves it as it is. */
  ghost predicate Settled(env: Env, def: Definition) {
    InDomains(env, def) && forall d :: d in def.records ==> SettledList(env, d, def.records[d])
  }

  /** The snapshot is as normalization leaves it: one more pass settles it and changes nothing about its order. */
  ghost predicate RipeDef(env: Env, def: Definition) {
    InDomains(env, def) && forall d :: d in def.records ==> RipeList(env, d, def.records[d])
  }

  /* ---------- insertion-ordered maps ---------- */

  type Entries = seq<(Name, Record)>

  function AsMap(m: Entries): map<Name, Record> {
    if m == [] then map[] else AsMap(m[..|m| - 1])[m[|m| - 1].0 := m[|m| - 1].1]
  }

  /** Replaces the value of a key in its place, or appends the key. */
  function Put(m: Entries, k: Name, v: Record): Entries {
    if m == [] then [(k, v)] else if m[0].0 == k then [(k, v)] + m[1..] else [m[0]] + Put(m[1..], k, v)
  }

  function Delete(m: Entries, k: Name): Entries {
    if m == [] then [] else if m[0].0 == k then m[1..] else [m[0]] + Delete(m[1..], k)
  }

  function Find(m: Entries, k: Name): Option<Record> {
    if m == [] then None else if m[0].0 == k then Some(m[0].1) else Find(m[1..], k)
  }

  function ById(xs: seq<Record>): Entries {
    if xs == [] then [] else Put(ById(xs[..|xs| - 1]), xs[|xs| - 1].id, xs[|xs| - 1])
  }

  function Keys(m: Entries): seq<Name> {
    seq(|m|, i requires 0 <= i < |m| => m[i].0)
  }

  function Values(m: Entries): seq<Record> {
    seq(|m|, i requires 0 <= i < |m| => m[i].1)
  }

  /* ---------- change sets ---------- */

  datatype Change = Change(id: Name, before: Option<Record>, after: Option<Record>)

  datatype ChangeSet = ChangeSet(domains: map<Name, seq<Change>>, scalar: Option<(string, string)>)

  datatype Side = Before | After

  function SideOf(c: Change, side: Side): Option<Record> {
    if side.Before? then c.before else c.after
  }

  /** The keys of the first map, then those that only the second has. */
  function AllKeys(prior: Entries, next: Entries): seq<Name> {
    Keys(prior) + NewKeys(prior, Keys(next))
  }

  function NewKeys(prior: Entries, keys: seq<Name>): seq<Name> {
    if keys == [] then []
    else (if Find(prior, keys[0]).None? then [keys[0]] else []) + NewKeys(prior, keys[1..])
  }

  function DiffKeys(prior: Entries, next: Entries, keys: seq<Name>): seq<Change> {
    if keys == [] then []
    else
      var left, right := Find(prior, keys[0]), Find(next, keys[0]);
      (if left == right then [] else [Change(keys[0], left, right)]) + DiffKeys(prior, next, keys[1..])
  }

  function DiffRecords(before: seq<Record>, after: seq<Record>): seq<Change> {
    DiffKeys(ById(before), ById(after), AllKeys(ById(before), ById(after)))
  }

  function Diff(before: Definition, after: Definition): ChangeSet {
    ChangeSet(
      map d | d in Domains && DiffRecords(RecordsOf(before, d), RecordsOf(after, d)) != [] :: DiffRecords(RecordsOf(before, d), RecordsOf(after, d)),
      if before.normalization == after.normalization then None else Some((before.normalization, after.normalization)))
  }

  predicate IsEmpty(c: ChangeSet) { c.domains == map[] && c.scalar.None? }

  function Update(m: Entries, k: Name, v: Option<Record>): Entries {
    if v.None? then Delete(m, k) else Put(m, k, v.value)
  }

  function UpdateAll(m: Entries, changes: seq<Change>, side: Side): Entries
    decreases |changes|
  {
    if changes == [] then m else UpdateAll(Update(m, changes[0].id, SideOf(changes[0], side)), changes[1..], side)
  }

  function Replace(env: Env, def: Definition, domain: Name, xs: seq<Record>): Definition {
    Normalize(env, def.(records := def.records[domain := xs]))
  }

  function ReplaceChanged(env: Env, def: Definition, domain: Name, changes: seq<Change>, side: Side): Definition {
    Replace(env, def, domain, Values(UpdateAll(ById(RecordsOf(def, domain)), changes, side)))
  }

  function ApplyDomains(env: Env, def: Definition, c: ChangeSet, side: Side, domains: seq<Name>): Definition
    decreases |domains|
  {
    if domains == [] then def
    else
      ApplyDomains(env, if domains[0] in c.domains then ReplaceChanged(env, def, domains[0], c.domains[domains[0]], side) else def, c, side, domains[1..])
  }

  function SetNormalization(env: Env, def: Definition, value: string): Definition {
    Normalize(env, def.(normalization := value))
  }

  /** One side of a change set put into a snapshot. */
  function Apply(env: Env, def: Definition, c: ChangeSet, side: Side): Definition {
    var next := ApplyDomains(env, def, c, side, Domains);
    if c.scalar.None? then next else SetNormalization(env, next, if side.Before? then c.scalar.value.0 else c.scalar.value.1)
  }
}
