/** Undo and redo by change sets: what they restore, and exactly when. */
module AssetUndo {
  import opened Bytes
  import opened AssetChanges

  /* ---------- insertion-ordered maps ---------- */

  ghost predicate DistinctKeys(m: Entries) {
    forall i, j :: 0 <= i < j < |m| ==> m[i].0 != m[j].0
  }

  /** Every key is the id of its record. */
  ghost predicate Keyed(m: Entries) {
    DistinctKeys(m) && forall i :: 0 <= i < |m| ==> m[i].0 == m[i].1.id
  }

  lemma {:induction false} FindIs(m: Entries, k: Name)
    requires DistinctKeys(m)
    ensures forall v :: Find(m, k) == Some(v) <==> (k, v) in m
    ensures Find(m, k).None? <==> k !in Keys(m)
  {
    if m != [] {
      FindIs(m[1..], k);
      assert m == [m[0]] + m[1..];
      assert Keys(m) == [m[0].0] + Keys(m[1..]);
    }
  }

  lemma {:induction false} PutIs(m: Entries, k: Name, v: Record)
    requires Keyed(m) && v.id == k
    ensures Keyed(Put(m, k, v))
    ensures forall e :: e in Put(m, k, v) <==> e == (k, v) || (e in m && e.0 != k)
  {
    if m != [] {
      var rest := m[1..];
      assert m == [m[0]] + rest;
      if m[0].0 != k { PutIs(rest, k, v); }
    }
  }

  lemma {:induction false} DeleteIs(m: Entries, k: Name)
    requires Keyed(m)
    ensures Keyed(Delete(m, k))
    ensures forall e :: e in Delete(m, k) <==> e in m && e.0 != k
  {
    if m != [] {
      var rest := m[1..];
      assert m == [m[0]] + rest;
      if m[0].0 != k { DeleteIs(rest, k); }
    }
  }

  lemma UpdateIs(m: Entries, k: Name, v: Option<Record>)
    requires Keyed(m) && (v.Some? ==> v.value.id == k)
    ensures Keyed(Update(m, k, v))
    ensures forall other :: Find(Update(m, k, v), other) == if other == k then v else Find(m, other)
  {
    hide Put, Delete, Find;
    if v.Some? { PutIs(m, k, v.value); } else { DeleteIs(m, k); }
    var u := Update(m, k, v);
    forall other ensures Find(u, other) == if other == k then v else Find(m, other) {
      FindIs(u, other);
      FindIs(m, other);
      KeysHave(u, other);
      KeysHave(m, other);
    }
  }

  lemma KeysHave(m: Entries, k: Name)
    ensures k in Keys(m) <==> exists v :: (k, v) in m
  {
    if k in Keys(m) { var i :| 0 <= i < |m| && Keys(m)[i] == k; assert (k, m[i].1) in m; }
    if v :| (k, v) in m { var i :| 0 <= i < |m| && m[i] == (k, v); assert Keys(m)[i] == k; }
  }

  /** The last record with the id. */
  function LastWith(xs: seq<Record>, id: Name): Option<Record> {
    if xs == [] then None else if xs[|xs| - 1].id == id then Some(xs[|xs| - 1]) else LastWith(xs[..|xs| - 1], id)
  }

  lemma {:induction false} ByIdIs(xs: seq<Record>)
    ensures Keyed(ById(xs))
    ensures forall id :: Find(ById(xs), id) == LastWith(xs, id)
    decreases |xs|
  {
    hide Keyed, Put, Find;
    if xs == [] { EmptyKeyed(); } else {
      var front, last := xs[..|xs| - 1], xs[|xs| - 1];
      ByIdIs(front);
      UpdateIs(ById(front), last.id, Some(last));
    }
  }

  lemma EmptyKeyed()
    ensures Keyed([]) && forall id :: Find([], id) == None
  {
  }

  lemma {:induction false} LastWithIs(xs: seq<Record>, id: Name)
    ensures LastWith(xs, id).Some? ==> LastWith(xs, id).value in xs && LastWith(xs, id).value.id == id
    ensures LastWith(xs, id).None? ==> forall r :: r in xs ==> r.id != id
    ensures Unique(xs) ==> forall r :: r in xs && r.id == id ==> LastWith(xs, id) == Some(r)
    decreases |xs|
  {
    if xs != [] { LastWithIs(xs[..|xs| - 1], id); }
  }

  /* ---------- what a change set holds ---------- */

  ghost predicate Lists(changes: seq<Change>, prior: Entries, next: Entries, keys: seq<Name>) {
    && (forall c :: c in changes ==> c.before == Find(prior, c.id) && c.after == Find(next, c.id) && c.before != c.after)
    && (forall k :: k in keys && Find(prior, k) != Find(next, k) ==> Change(k, Find(prior, k), Find(next, k)) in changes)
  }

  lemma {:induction false} DiffLists(prior: Entries, next: Entries, keys: seq<Name>)
    ensures Lists(DiffKeys(prior, next, keys), prior, next, keys)
    decreases |keys|
  {
    hide Find;
    if keys != [] {
      DiffLists(prior, next, keys[1..]);
      assert keys == [keys[0]] + keys[1..];
    }
  }

  lemma {:induction false} NewKeysAre(prior: Entries, keys: seq<Name>, k: Name)
    requires k in keys && Find(prior, k).None?
    ensures k in NewKeys(prior, keys)
    decreases |keys|
  {
    if keys[0] != k { assert k in keys[1..]; NewKeysAre(prior, keys[1..], k); }
  }

  lemma AllKeysCover(prior: Entries, next: Entries, k: Name)
    requires Keyed(prior) && Keyed(next) && (Find(prior, k).Some? || Find(next, k).Some?)
    ensures k in AllKeys(prior, next)
  {
    hide Find, Keys;
    FindIs(prior, k);
    FindIs(next, k);
    if Find(prior, k).None? { NewKeysAre(prior, Keys(next), k); }
  }

  /** The two lists hold the same last record under every id. */
  ghost predicate SameRecords(a: seq<Record>, b: seq<Record>) {
    forall id :: LastWith(a, id) == LastWith(b, id)
  }

  lemma DiffSays(a: seq<Record>, b: seq<Record>)
    ensures forall c :: c in DiffRecords(a, b) ==> c.before == LastWith(a, c.id) && c.after == LastWith(b, c.id)
    ensures forall id :: LastWith(a, id) != LastWith(b, id) ==> Change(id, LastWith(a, id), LastWith(b, id)) in DiffRecords(a, b)
    ensures DiffRecords(a, b) == [] <==> SameRecords(a, b)
  {
    hide ById, Find, AllKeys, DiffKeys, LastWith;
    var prior, next := ById(a), ById(b);
    ByIdIs(a); ByIdIs(b);
    var keys := AllKeys(prior, next);
    DiffLists(prior, next, keys);
    forall id | LastWith(a, id) != LastWith(b, id) ensures Change(id, LastWith(a, id), LastWith(b, id)) in DiffRecords(a, b) {
      AllKeysCover(prior, next, id);
    }
    if DiffRecords(a, b) != [] {
      var c := DiffRecords(a, b)[0];
      assert c in DiffRecords(a, b) && c.before != c.after;
    }
  }

  /** Every change of the list agrees with the goal. */
  ghost predicate Agree(changes: seq<Change>, side: Side, goal: seq<Record>) {
    forall c :: c in changes ==> SideOf(c, side) == LastWith(goal, c.id)
  }

  ghost predicate Changes(changes: seq<Change>, id: Name) {
    exists c :: c in changes && c.id == id
  }

  /** What the changes name has become what the goal has, and the rest is as before. */
  lemma {:induction false} UpdateAllReaches(m: Entries, changes: seq<Change>, side: Side, goal: seq<Record>)
    requires Keyed(m) && Agree(changes, side, goal)
    ensures Keyed(UpdateAll(m, changes, side))
    ensures forall id :: Find(UpdateAll(m, changes, side), id) == if Changes(changes, id) then LastWith(goal, id) else Find(m, id)
    decreases |changes|
  {
    hide Find, LastWith, Keyed;
    if changes != [] {
      var c, rest := changes[0], changes[1..];
      assert c in changes && changes == [c] + rest;
      LastWithIs(goal, c.id);
      UpdateIs(m, c.id, SideOf(c, side));
      UpdateAllReaches(Update(m, c.id, SideOf(c, side)), rest, side, goal);
      forall id ensures Changes(changes, id) <==> id == c.id || Changes(rest, id) {
        if Changes(rest, id) { var e :| e in rest && e.id == id; assert e in changes; }
      }
    }
  }

  /* ---------- sorted lists are determined by what they hold ---------- */

  lemma CompareOrder(env: Env, d: Name, x: Record, y: Record, z: Record)
    requires Collates(env)
    ensures Compare(env, d, x, y) < 0 <==> Compare(env, d, y, x) > 0
    ensures Compare(env, d, x, y) == 0 ==> x.id == y.id
    ensures Compare(env, d, x, x) == 0
    ensures Compare(env, d, x, y) <= 0 && Compare(env, d, y, z) <= 0 ==> Compare(env, d, x, z) <= 0
  {
  }

  lemma InFront(env: Env, d: Name, x: Record, xs: seq<Record>)
    requires Collates(env) && Sorted(env, d, xs) && (xs == [] || Compare(env, d, x, xs[0]) <= 0)
    ensures Sorted(env, d, [x] + xs)
  {
    hide Compare;
    var r := [x] + xs;
    forall i, j | 0 <= i < j < |r| ensures Compare(env, d, r[i], r[j]) <= 0 {
      if i == 0 && j > 1 { CompareOrder(env, d, x, xs[0], xs[j - 1]); }
    }
  }

  lemma InsertHead(env: Env, d: Name, x: Record, xs: seq<Record>)
    requires Insert(env, d, x, xs) != []
    ensures xs == [] || Insert(env, d, x, xs)[0] in {x, xs[0]}
    ensures xs == [] ==> Insert(env, d, x, xs)[0] == x
  {
  }

  lemma {:induction false} InsertSorted(env: Env, d: Name, x: Record, xs: seq<Record>)
    requires Collates(env) && Sorted(env, d, xs)
    ensures Sorted(env, d, Insert(env, d, x, xs)) && Insert(env, d, x, xs) != []
    ensures multiset(Insert(env, d, x, xs)) == multiset(xs) + multiset{x}
    decreases |xs|
  {
    hide Compare, Collates;
    if xs == [] || Compare(env, d, x, xs[0]) < 0 { InFront(env, d, x, xs); }
    else {
      hide Sorted;
      TailSorted(env, d, xs);
      InsertSorted(env, d, x, xs[1..]);
      assert xs == [xs[0]] + xs[1..];
      CompareOrder(env, d, x, xs[0], x);
      InsertHead(env, d, x, xs[1..]);
      InFront(env, d, xs[0], Insert(env, d, x, xs[1..]));
    }
  }

  lemma TailSorted(env: Env, d: Name, xs: seq<Record>)
    requires Sorted(env, d, xs) && xs != []
    ensures Sorted(env, d, xs[1..]) && Sorted(env, d, xs[..|xs| - 1])
    ensures |xs| > 1 ==> Compare(env, d, xs[0], xs[1]) <= 0
    ensures var front := xs[..|xs| - 1]; forall r :: r in front ==> Compare(env, d, r, xs[|xs| - 1]) <= 0
  {
  }

  lemma NothingSorted(env: Env, d: Name)
    ensures Sorted(env, d, [])
  {
  }

  lemma {:induction false} SortSorts(env: Env, d: Name, xs: seq<Record>)
    requires Collates(env)
    ensures Sorted(env, d, Sort(env, d, xs)) && multiset(Sort(env, d, xs)) == multiset(xs)
    decreases |xs|
  {
    hide Sorted, Collates, Compare, Insert;
    if xs == [] { NothingSorted(env, d); }
    else {
      SortSorts(env, d, xs[..|xs| - 1]);
      InsertSorted(env, d, xs[|xs| - 1], Sort(env, d, xs[..|xs| - 1]));
      assert xs == xs[..|xs| - 1] + [xs[|xs| - 1]];
    }
  }

  lemma {:induction false} InsertAtEnd(env: Env, d: Name, x: Record, xs: seq<Record>)
    requires forall r :: r in xs ==> Compare(env, d, x, r) >= 0
    ensures Insert(env, d, x, xs) == xs + [x]
    decreases |xs|
  {
    if xs != [] {
      assert xs == [xs[0]] + xs[1..];
      InsertAtEnd(env, d, x, xs[1..]);
    }
  }

  lemma {:induction false} SortedStays(env: Env, d: Name, xs: seq<Record>)
    requires Collates(env) && Sorted(env, d, xs)
    ensures Sort(env, d, xs) == xs
    decreases |xs|
  {
    if xs != [] {
      var front, last := xs[..|xs| - 1], xs[|xs| - 1];
      TailSorted(env, d, xs);
      SortedStays(env, d, front);
      hide Sorted, Compare, Collates;
      forall r | r in front ensures Compare(env, d, last, r) >= 0 { CompareOrder(env, d, r, last, last); }
      InsertAtEnd(env, d, last, front);
    }
  }

  lemma HasFirst(xs: seq<Record>)
    ensures xs != [] ==> exists x :: x in xs
  {
    if xs != [] { assert xs[0] in xs; }
  }

  /** Two sorted lists with unique ids and the same records under them are the same list. */
  lemma {:induction false} SortedDetermined(env: Env, d: Name, xs: seq<Record>, ys: seq<Record>)
    requires Collates(env) && Sorted(env, d, xs) && Sorted(env, d, ys) && Unique(xs) && Unique(ys)
    requires forall r :: r in xs <==> r in ys
    ensures xs == ys
    decreases |xs|
  {
    if xs == [] {
      HasFirst(ys);
    } else {
      assert xs[0] in ys;
      assert ys != [];
      assert ys[0] in xs;
      FirstIsLeast(env, d, xs, ys[0]);
      FirstIsLeast(env, d, ys, xs[0]);
      CompareOrder(env, d, xs[0], ys[0], xs[0]);
      SameId(xs, xs[0], ys[0]);
      TailUnique(xs); TailUnique(ys);
      TailSorted(env, d, xs); TailSorted(env, d, ys);
      assert xs == [xs[0]] + xs[1..] && ys == [ys[0]] + ys[1..];
      SortedDetermined(env, d, xs[1..], ys[1..]);
    }
  }

  lemma TailUnique(xs: seq<Record>)
    requires Unique(xs) && xs != []
    ensures Unique(xs[1..]) && forall r :: r in xs[1..] <==> r in xs && r != xs[0]
  {
    assert xs == [xs[0]] + xs[1..];
  }

  lemma FirstIsLeast(env: Env, d: Name, xs: seq<Record>, r: Record)
    requires Collates(env) && Sorted(env, d, xs) && r in xs
    ensures Compare(env, d, xs[0], r) <= 0
  {
    CompareOrder(env, d, r, r, r);
  }

  lemma SameId(xs: seq<Record>, x: Record, y: Record)
    requires Unique(xs) && x in xs && y in xs && x.id == y.id
    ensures x == y
  {
  }

  /* ---------- one domain ---------- */

  lemma ValuesAre(m: Entries)
    requires Keyed(m)
    ensures Unique(Values(m)) && forall r :: r in Values(m) <==> Find(m, r.id) == Some(r)
  {
    hide Find;
    forall r ensures r in Values(m) <==> Find(m, r.id) == Some(r) {
      FindIs(m, r.id);
      if (r.id, r) in m { var i :| 0 <= i < |m| && m[i] == (r.id, r); assert Values(m)[i] == r; }
    }
  }

  lemma UniqueIsBag(xs: seq<Record>, ys: seq<Record>)
    requires multiset(xs) == multiset(ys) && Unique(ys)
    ensures Unique(xs) && forall r :: r in xs <==> r in ys
  {
    forall r ensures r in xs <==> r in ys { assert r in xs <==> r in multiset(xs); }
    forall i, j | 0 <= i < j < |xs| ensures xs[i].id != xs[j].id {
      if xs[i].id == xs[j].id {
        assert xs[i] in ys && xs[j] in ys;
        SameId(ys, xs[i], xs[j]);
        TwiceInBag(xs, i, j);
        OnceInBag(ys, xs[i]);
        assert false;
      }
    }
  }

  lemma TwiceInBag(xs: seq<Record>, i: int, j: int)
    requires 0 <= i < j < |xs| && xs[i] == xs[j]
    ensures multiset(xs)[xs[i]] >= 2
  {
    assert xs == xs[..j] + xs[j..];
    assert xs[i] in xs[..j] && xs[j] in xs[j..];
    assert multiset(xs)[xs[i]] == multiset(xs[..j])[xs[i]] + multiset(xs[j..])[xs[i]];
  }

  lemma {:induction false} OnceInBag(ys: seq<Record>, r: Record)
    requires Unique(ys)
    ensures multiset(ys)[r] <= 1
    decreases |ys|
  {
    if ys != [] {
      assert ys == [ys[0]] + ys[1..];
      OnceInBag(ys[1..], r);
      if r == ys[0] { assert r !in ys[1..]; assert multiset(ys[1..])[r] == 0; }
    }
  }

  /* ---------- one more normalization ---------- */

  function SettleRecord(env: Env, d: Name, r: Record): Record { NormRecord(env, d, r, 0) }

  function SettleOpt(env: Env, d: Name, r: Option<Record>): Option<Record> {
    if r.Some? then Some(SettleRecord(env, d, r.value)) else None
  }

  function SettleList(env: Env, d: Name, xs: seq<Record>): seq<Record> {
    seq(|xs|, i requires 0 <= i < |xs| => SettleRecord(env, d, xs[i]))
  }

  lemma NormIsSettle(env: Env, d: Name, xs: seq<Record>)
    requires forall r :: r in xs ==> Ripe(env, d, r)
    ensures NormRecords(env, d, xs) == SettleList(env, d, xs)
  {
    forall i | 0 <= i < |xs| ensures NormRecords(env, d, xs)[i] == SettleList(env, d, xs)[i] { assert Ripe(env, d, xs[i]); }
  }

  lemma SettleKeeps(env: Env, d: Name, xs: seq<Record>)
    requires forall r :: r in xs ==> Ripe(env, d, r)
    ensures forall r :: r in SettleList(env, d, xs) ==> Fixed(env, d, r) && Ripe(env, d, r)
    ensures SettleList(env, d, SettleList(env, d, xs)) == SettleList(env, d, xs)
    ensures Unique(SettleList(env, d, xs)) <==> Unique(xs)
  {
    hide NormRecord;
    var s := SettleList(env, d, xs);
    forall i | 0 <= i < |xs| ensures Fixed(env, d, s[i]) && Ripe(env, d, s[i]) && SettleRecord(env, d, s[i]) == s[i] && s[i].id == xs[i].id {
      assert Ripe(env, d, xs[i]);
    }
  }

  lemma SettleSorted(env: Env, d: Name, xs: seq<Record>)
    requires RipeList(env, d, xs)
    ensures SettledList(env, d, SettleList(env, d, xs)) && RipeList(env, d, SettleList(env, d, xs))
  {
    SettleKeeps(env, d, xs);
    hide NormRecord;
    var s := SettleList(env, d, xs);
    forall i, j | 0 <= i < j < |s| ensures Compare(env, d, s[i], s[j]) <= 0 {
      assert Ripe(env, d, xs[i]) && Ripe(env, d, xs[j]);
      assert Compare(env, d, s[i], s[j]) == Compare(env, d, xs[i], xs[j]);
    }
  }

  lemma SettledIffFixed(env: Env, d: Name, xs: seq<Record>)
    requires RipeList(env, d, xs)
    ensures SettleList(env, d, xs) == xs <==> SettledList(env, d, xs)
  {
    SettleSorted(env, d, xs);
    hide NormRecord;
    if SettledList(env, d, xs) {
      forall i | 0 <= i < |xs| ensures SettleList(env, d, xs)[i] == xs[i] { assert Fixed(env, d, xs[i]); }
    }
  }

  lemma {:induction false} LastSettled(env: Env, d: Name, xs: seq<Record>, id: Name)
    requires forall r :: r in xs ==> Ripe(env, d, r)
    ensures LastWith(SettleList(env, d, xs), id) == SettleOpt(env, d, LastWith(xs, id))
    decreases |xs|
  {
    if xs != [] {
      var front, last := xs[..|xs| - 1], xs[|xs| - 1];
      assert Ripe(env, d, last);
      LastSettled(env, d, front, id);
      assert SettleList(env, d, xs)[..|xs| - 1] == SettleList(env, d, front);
    }
  }

  lemma NormalList(env: Env, d: Name, xs: seq<Record>)
    requires Collates(env) && RipeList(env, d, xs)
    ensures Sort(env, d, NormRecords(env, d, xs)) == SettleList(env, d, xs)
  {
    NormIsSettle(env, d, xs);
    SettleSorted(env, d, xs);
    SortedStays(env, d, SettleList(env, d, xs));
  }

  /* ---------- one domain, as far as one more normalization goes ---------- */

  /** The records of the domain after one side of a change list was put in. */
  function Restored(env: Env, d: Name, xs: seq<Record>, changes: seq<Change>, side: Side): seq<Record> {
    Sort(env, d, NormRecords(env, d, Values(UpdateAll(ById(xs), changes, side))))
  }

  /** The lists hold the same last records, once these are settled. */
  ghost predicate SameOnceSettled(env: Env, d: Name, xs: seq<Record>, goal: seq<Record>, id: Name) {
    SettleOpt(env, d, LastWith(xs, id)) == SettleOpt(env, d, LastWith(goal, id))
  }

  /** R holds each id once, settled, as the goal has it. */
  ghost predicate Reached(env: Env, d: Name, R: seq<Record>, goal: seq<Record>) {
    && SettledList(env, d, R) && Unique(R)
    && forall id :: LastWith(R, id) == SettleOpt(env, d, LastWith(goal, id))
  }

  lemma DomainReached(env: Env, d: Name, xs: seq<Record>, goal: seq<Record>, changes: seq<Change>, side: Side)
    requires Collates(env) && RipeList(env, d, xs) && RipeList(env, d, goal) && Agree(changes, side, goal)
    requires forall id :: SameOnceSettled(env, d, xs, goal, id) || Changes(changes, id)
    ensures Reached(env, d, Restored(env, d, xs, changes, side), goal)
  {
    hide Sort, LastWith, UpdateAll, ById, Find, Ripe, SettleRecord, Compare, Keyed, Values;
    ByIdIs(xs);
    UpdateAllReaches(ById(xs), changes, side, goal);
    var m := UpdateAll(ById(xs), changes, side);
    var values := Values(m);
    ValuesAre(m);
    forall r | r in values ensures Ripe(env, d, r) { LastWithIs(goal, r.id); LastWithIs(xs, r.id); }
    NormIsSettle(env, d, values);
    SettleKeeps(env, d, values);
    var s := SettleList(env, d, values);
    SortSorts(env, d, s);
    var R := Sort(env, d, s);
    UniqueIsBag(R, s);
    forall id ensures LastWith(R, id) == SettleOpt(env, d, LastWith(goal, id)) {
      assert SameOnceSettled(env, d, xs, goal, id) || Changes(changes, id);
      LastSettled(env, d, values, id);
      SameLast(R, s, id);
      LastOfValues(m, id);
    }
  }

  lemma SameLast(xs: seq<Record>, ys: seq<Record>, id: Name)
    requires Unique(xs) && Unique(ys) && forall r :: r in xs <==> r in ys
    ensures LastWith(xs, id) == LastWith(ys, id)
  {
    LastWithIs(xs, id);
    LastWithIs(ys, id);
  }

  lemma LastOfValues(m: Entries, id: Name)
    requires Keyed(m)
    ensures LastWith(Values(m), id) == Find(m, id)
  {
    hide Find, LastWith;
    ValuesAre(m);
    LastWithIs(Values(m), id);
    FindIs(m, id);
    KeysHave(m, id);
    if Find(m, id).Some? {
      var v := Find(m, id).value;
      var i :| 0 <= i < |m| && m[i] == (id, v);
      assert v.id == id;
      assert v in Values(m);
    }
  }

  /** What was reached is the goal, settled, exactly if no id occurs twice in the goal. */
  lemma ReachedIsGoal(env: Env, d: Name, R: seq<Record>, goal: seq<Record>)
    requires Collates(env) && RipeList(env, d, goal) && Reached(env, d, R, goal)
    ensures R == SettleList(env, d, goal) <==> Unique(goal)
    ensures R == goal <==> Unique(goal) && SettledList(env, d, goal)
  {
    hide LastWith, Ripe, SettleRecord, Compare;
    var s := SettleList(env, d, goal);
    SettleSorted(env, d, goal);
    SettleKeeps(env, d, goal);
    if Unique(goal) {
      forall r ensures r in R <==> r in s {
        LastWithIs(R, r.id); LastWithIs(s, r.id);
        LastSettled(env, d, goal, r.id);
      }
      SortedDetermined(env, d, R, s);
    }
    SettledIffFixed(env, d, goal);
  }

  /* ---------- whole snapshots ---------- */

  /** One side of the change set leads from one snapshot to the other, as far as one more normalization goes. */
  ghost predicate Leads(env: Env, c: ChangeSet, side: Side, from: Definition, goal: Definition) {
    && (forall d :: d in c.domains ==> d in Domains)
    && (forall d :: d in Domains ==> LeadsIn(env, c, side, d, RecordsOf(from, d), RecordsOf(goal, d)))
    && (c.scalar.None? ==> from.normalization == goal.normalization)
    && (c.scalar.Some? ==> goal.normalization == if side.Before? then c.scalar.value.0 else c.scalar.value.1)
  }

  ghost predicate LeadsIn(env: Env, c: ChangeSet, side: Side, d: Name, xs: seq<Record>, goal: seq<Record>) {
    if d in c.domains then Agree(c.domains[d], side, goal) && forall id :: SameOnceSettled(env, d, xs, goal, id) || Changes(c.domains[d], id)
    else forall id :: SameOnceSettled(env, d, xs, goal, id)
  }

  /** The change set of two snapshots leads from the later to the earlier and back, also from what only differs unsettled. */
  lemma DiffLeads(env: Env, a: Definition, b: Definition, r: Definition)
    requires RipeDef(env, r) && r.normalization == b.normalization && SameSettled(env, r, b)
    ensures Leads(env, Diff(a, b), Before, r, a)
  {
    hide DiffRecords, LastWith, Ripe, SettleRecord, SameOnceSettled;
    var c := Diff(a, b);
    forall d | d in Domains ensures LeadsIn(env, c, Before, d, RecordsOf(r, d), RecordsOf(a, d)) {
      DomainLeads(env, c, Before, d, RecordsOf(a, d), RecordsOf(b, d), RecordsOf(r, d), RecordsOf(a, d));
    }
  }

  lemma DiffLeadsOn(env: Env, a: Definition, b: Definition, r: Definition)
    requires RipeDef(env, r) && r.normalization == a.normalization && SameSettled(env, r, a)
    ensures Leads(env, Diff(a, b), After, r, b)
  {
    hide DiffRecords, LastWith, Ripe, SettleRecord, SameOnceSettled;
    var c := Diff(a, b);
    forall d | d in Domains ensures LeadsIn(env, c, After, d, RecordsOf(r, d), RecordsOf(b, d)) {
      DomainLeads(env, c, After, d, RecordsOf(a, d), RecordsOf(b, d), RecordsOf(r, d), RecordsOf(b, d));
    }
  }

  /** The snapshots have the same records, once these are settled. */
  ghost predicate SameSettled(env: Env, r: Definition, b: Definition) {
    forall d :: d in Domains ==> AllSame(env, d, RecordsOf(r, d), RecordsOf(b, d))
  }

  ghost predicate AllSame(env: Env, d: Name, xs: seq<Record>, ys: seq<Record>) {
    forall id :: SameOnceSettled(env, d, xs, ys, id)
  }

  lemma DomainLeads(env: Env, c: ChangeSet, side: Side, d: Name, xs: seq<Record>, ys: seq<Record>, from: seq<Record>, goal: seq<Record>)
    requires d in c.domains ==> c.domains[d] == DiffRecords(xs, ys)
    requires d in c.domains <==> DiffRecords(xs, ys) != []
    requires goal == (if side.Before? then xs else ys)
    requires AllSame(env, d, from, if side.Before? then ys else xs)
    ensures LeadsIn(env, c, side, d, from, goal)
  {
    hide DiffRecords, LastWith, SettleRecord;
    DiffSays(xs, ys);
    forall id ensures SameOnceSettled(env, d, from, goal, id) || (d in c.domains && Changes(c.domains[d], id)) {
      assert SameOnceSettled(env, d, from, if side.Before? then ys else xs, id);
      if LastWith(xs, id) != LastWith(ys, id) { assert Change(id, LastWith(xs, id), LastWith(ys, id)).id == id; }
    }
  }

  /** Replacing the records of one domain settles all others. */
  lemma ReplaceIs(env: Env, def: Definition, d: Name, xs: seq<Record>, e: Name)
    requires Collates(env) && RipeDef(env, def) && d in Domains && e in Domains
    ensures RecordsOf(Replace(env, def, d, xs), e) == if e == d then Sort(env, d, NormRecords(env, d, xs)) else SettleList(env, e, RecordsOf(def, e))
    ensures Replace(env, def, d, xs).normalization == def.normalization
    ensures Replace(env, def, d, xs).records.Keys == (set x | x in Domains)
  {
    hide Sort, NormRecords, SettleList;
    if e != d { NormalList(env, e, RecordsOf(def, e)); }
  }

  function OneDomain(env: Env, def: Definition, c: ChangeSet, side: Side, d: Name): Definition {
    if d in c.domains then ReplaceChanged(env, def, d, c.domains[d], side) else def
  }

  /** After one domain: it is reached if the change set names it, and every other one settled. */
  lemma OneDomainIs(env: Env, def: Definition, c: ChangeSet, side: Side, goal: Definition, d: Name)
    requires Collates(env) && RipeDef(env, def) && RipeDef(env, goal) && d in Domains
    requires LeadsIn(env, c, side, d, RecordsOf(def, d), RecordsOf(goal, d))
    ensures var r := OneDomain(env, def, c, side, d);
      && RipeDef(env, r) && r.normalization == def.normalization
      && (d in c.domains ==> Reached(env, d, RecordsOf(r, d), RecordsOf(goal, d)))
      && (d !in c.domains ==> r == def)
    ensures d in c.domains ==> forall e :: e in Domains && e != d ==>
      RecordsOf(OneDomain(env, def, c, side, d), e) == SettleList(env, e, RecordsOf(def, e))
  {
    hide Sort, NormRecords, SettleList, UpdateAll, ById, Reached, Ripe, Fixed, Sorted, Agree, SameOnceSettled;
    if d in c.domains {
      var xs := Values(UpdateAll(ById(RecordsOf(def, d)), c.domains[d], side));
      DomainReached(env, d, RecordsOf(def, d), RecordsOf(goal, d), c.domains[d], side);
      var r := Replace(env, def, d, xs);
      assert r == OneDomain(env, def, c, side, d);
      forall e | e in Domains ensures RipeList(env, e, RecordsOf(r, e)) {
        ReplaceIs(env, def, d, xs, e);
        if e == d { ReachedIsRipe(env, d, RecordsOf(r, d), RecordsOf(goal, d)); } else { SettleSorted(env, e, RecordsOf(def, e)); }
      }
      forall e | e in Domains && e != d ensures RecordsOf(r, e) == SettleList(env, e, RecordsOf(def, e)) { ReplaceIs(env, def, d, xs, e); }
      ReplaceIs(env, def, d, xs, d);
    }
  }

  lemma ReachedIsRipe(env: Env, d: Name, R: seq<Record>, goal: seq<Record>)
    requires Reached(env, d, R, goal)
    ensures RipeList(env, d, R) && SettleList(env, d, R) == R
  {
    hide NormRecord, LastWith;
    forall r | r in R ensures Ripe(env, d, r) { assert Fixed(env, d, r); }
    SettledIffFixed(env, d, R);
  }

  ghost predicate LeadsAll(env: Env, c: ChangeSet, side: Side, def: Definition, goal: Definition, ds: seq<Name>) {
    && (forall i, j :: 0 <= i < j < |ds| ==> ds[i] != ds[j])
    && (forall d :: d in ds ==> d in Domains && LeadsIn(env, c, side, d, RecordsOf(def, d), RecordsOf(goal, d)))
  }

  lemma SettledLeads(env: Env, c: ChangeSet, side: Side, d: Name, xs: seq<Record>, goal: seq<Record>)
    requires RipeList(env, d, xs) && LeadsIn(env, c, side, d, xs, goal)
    ensures LeadsIn(env, c, side, d, SettleList(env, d, xs), goal)
  {
    hide LastWith, Agree, NormRecord;
    forall id ensures SameOnceSettled(env, d, SettleList(env, d, xs), goal, id) <==> SameOnceSettled(env, d, xs, goal, id) {
      LastSettled(env, d, xs, id);
      LastWithIs(xs, id);
      if LastWith(xs, id).Some? { assert Ripe(env, d, LastWith(xs, id).value); }
    }
  }

  lemma LeadsRest(env: Env, c: ChangeSet, side: Side, def: Definition, next: Definition, goal: Definition, ds: seq<Name>)
    requires ds != [] && LeadsAll(env, c, side, def, goal, ds) && RipeDef(env, def)
    requires next == def || forall e :: e in Domains && e != ds[0] ==> RecordsOf(next, e) == SettleList(env, e, RecordsOf(def, e))
    ensures LeadsAll(env, c, side, next, goal, ds[1..]) && ds[0] !in ds[1..] && ds[0] in Domains
    ensures LeadsIn(env, c, side, ds[0], RecordsOf(def, ds[0]), RecordsOf(goal, ds[0]))
  {
    hide LeadsIn, SettleList, RipeList;
    assert ds == [ds[0]] + ds[1..];
    forall d | d in ds[1..] ensures d in Domains && LeadsIn(env, c, side, d, RecordsOf(next, d), RecordsOf(goal, d)) {
      assert d in ds && d != ds[0];
      if next != def { SettledLeads(env, c, side, d, RecordsOf(def, d), RecordsOf(goal, d)); }
    }
  }

  /** Some of the listed domains is changed, so that all records are normalized once more. */
  predicate Touched(c: ChangeSet, ds: seq<Name>) { exists e :: e in ds && e in c.domains }

  /** What became of domain d. */
  ghost predicate Became(env: Env, d: Name, xs: seq<Record>, goal: seq<Record>, R: seq<Record>, named: bool, touched: bool) {
    if named then Reached(env, d, R, goal) else R == if touched then SettleList(env, d, xs) else xs
  }

  lemma BecameOnwards(env: Env, d: Name, xs: seq<Record>, next: seq<Record>, goal: seq<Record>, R: seq<Record>, first: bool, changed: bool, named: bool, touched: bool)
    requires RipeList(env, d, xs) && (first ==> !named) && (first && changed ==> Reached(env, d, next, goal))
    requires !(first && changed) ==> next == if changed then SettleList(env, d, xs) else xs
    requires Became(env, d, next, goal, R, named, touched)
    ensures Became(env, d, xs, goal, R, named || (first && changed), touched || changed)
  {
    hide Reached, RipeList;
    if first && changed { ReachedIsRipe(env, d, next, goal); }
    else if changed { SettleTwice(env, d, xs); }
  }

  lemma SettleTwice(env: Env, d: Name, xs: seq<Record>)
    requires RipeList(env, d, xs)
    ensures SettleList(env, d, SettleList(env, d, xs)) == SettleList(env, d, xs)
  {
    SettleKeeps(env, d, xs);
  }

  lemma {:induction false} ApplyDomainsIs(env: Env, def: Definition, c: ChangeSet, side: Side, goal: Definition, ds: seq<Name>, d: Name)
    requires Collates(env) && RipeDef(env, def) && RipeDef(env, goal) && LeadsAll(env, c, side, def, goal, ds) && d in Domains
    ensures RipeDef(env, ApplyDomains(env, def, c, side, ds)) && ApplyDomains(env, def, c, side, ds).normalization == def.normalization
    ensures Became(env, d, RecordsOf(def, d), RecordsOf(goal, d), RecordsOf(ApplyDomains(env, def, c, side, ds), d), d in ds && d in c.domains, Touched(c, ds))
    decreases |ds|
  {
    if ds != [] {
      var f, rest := ds[0], ds[1..];
      var next := OneDomain(env, def, c, side, f);
      assert ApplyDomains(env, def, c, side, ds) == ApplyDomains(env, next, c, side, rest);
      assert ds == [f] + rest;
      RipeIn(env, def, d);
      hide RipeDef, RipeList, LeadsIn, OneDomain, RecordsOf, ApplyDomains, Collates, LeadsAll, SettleList, Became, Reached;
      LeadsFirst(env, c, side, def, goal, ds);
      OneDomainIs(env, def, c, side, goal, f);
      LeadsRest(env, c, side, def, next, goal, ds);
      ApplyDomainsIs(env, next, c, side, goal, rest, d);
      TouchedSplit(c, ds);
      BecameOnwards(env, d, RecordsOf(def, d), RecordsOf(next, d), RecordsOf(goal, d),
        RecordsOf(ApplyDomains(env, next, c, side, rest), d), d == f, f in c.domains, d in rest && d in c.domains, Touched(c, rest));
    } else {
      assert !Touched(c, ds);
    }
  }

  lemma RipeIn(env: Env, def: Definition, d: Name)
    requires RipeDef(env, def) && d in Domains
    ensures RipeList(env, d, RecordsOf(def, d))
  {
    hide RipeList;
  }

  lemma LeadsFirst(env: Env, c: ChangeSet, side: Side, def: Definition, goal: Definition, ds: seq<Name>)
    requires ds != [] && LeadsAll(env, c, side, def, goal, ds)
    ensures ds[0] in Domains && LeadsIn(env, c, side, ds[0], RecordsOf(def, ds[0]), RecordsOf(goal, ds[0]))
  {
    hide LeadsIn, RecordsOf;
  }

  lemma TouchedSplit(c: ChangeSet, ds: seq<Name>)
    requires ds != []
    ensures Touched(c, ds) <==> ds[0] in c.domains || Touched(c, ds[1..])
  {
    assert ds == [ds[0]] + ds[1..];
  }

  /** What a change set makes of a snapshot that it leads from. */
  lemma ApplyIs(env: Env, def: Definition, c: ChangeSet, side: Side, goal: Definition)
    requires Collates(env) && RipeDef(env, def) && RipeDef(env, goal) && Leads(env, c, side, def, goal)
    ensures RipeDef(env, Apply(env, def, c, side)) && Apply(env, def, c, side).normalization == goal.normalization
    ensures forall d :: d in Domains ==>
      Became(env, d, RecordsOf(def, d), RecordsOf(goal, d), RecordsOf(Apply(env, def, c, side), d), d in c.domains, !IsEmpty(c))
  {
    LeadsEverywhere(env, c, side, def, goal);
    var mid, r := ApplyDomains(env, def, c, side, Domains), Apply(env, def, c, side);
    assert "parts" in Domains;
    TouchedIffChanged(env, c, side, def, goal);
    hide LeadsAll, RipeDef, ApplyDomains, RecordsOf, Collates, Became, Touched, IsEmpty, SetNormalization;
    ApplyDomainsIs(env, def, c, side, goal, Domains, "parts");
    if c.scalar.Some? { ScalarIs(env, mid, goal); }
    forall d | d in Domains ensures Became(env, d, RecordsOf(def, d), RecordsOf(goal, d), RecordsOf(r, d), d in c.domains, !IsEmpty(c)) {
      ApplyDomainsIs(env, def, c, side, goal, Domains, d);
      if c.scalar.Some? {
        RipeIn(env, def, d);
        BecameSettled(env, d, RecordsOf(def, d), RecordsOf(goal, d), RecordsOf(mid, d), d in c.domains, Touched(c, Domains));
      }
    }
  }

  lemma LeadsEverywhere(env: Env, c: ChangeSet, side: Side, def: Definition, goal: Definition)
    requires Leads(env, c, side, def, goal)
    ensures LeadsAll(env, c, side, def, goal, Domains)
  {
    hide LeadsIn;
  }

  lemma TouchedIffChanged(env: Env, c: ChangeSet, side: Side, def: Definition, goal: Definition)
    requires Leads(env, c, side, def, goal)
    ensures IsEmpty(c) <==> !Touched(c, Domains) && c.scalar.None?
  {
    hide LeadsIn;
    if c.domains != map[] { var d :| d in c.domains; assert d in Domains; }
  }

  lemma ScalarIs(env: Env, mid: Definition, goal: Definition)
    requires Collates(env) && RipeDef(env, mid) && RipeDef(env, goal)
    ensures var r := SetNormalization(env, mid, goal.normalization);
      RipeDef(env, r) && r.normalization == goal.normalization && forall d :: d in Domains ==> RecordsOf(r, d) == SettleList(env, d, RecordsOf(mid, d))
  {
    hide Sort, NormRecords, SettleList, RipeList;
    forall d | d in Domains
      ensures Sort(env, d, NormRecords(env, d, RecordsOf(mid, d))) == SettleList(env, d, RecordsOf(mid, d)) && RipeList(env, d, SettleList(env, d, RecordsOf(mid, d)))
    {
      NormalList(env, d, RecordsOf(mid, d));
      SettleSorted(env, d, RecordsOf(mid, d));
    }
  }

  lemma BecameSettled(env: Env, d: Name, xs: seq<Record>, goal: seq<Record>, R: seq<Record>, named: bool, touched: bool)
    requires RipeList(env, d, xs) && Became(env, d, xs, goal, R, named, touched)
    ensures Became(env, d, xs, goal, SettleList(env, d, R), named, true)
  {
    hide Reached, RipeList;
    if named { ReachedIsRipe(env, d, R, goal); } else if touched { SettleTwice(env, d, xs); }
  }

  /* ---------- main results ---------- */

  lemma SameDefinition(env: Env, a: Definition, b: Definition)
    requires InDomains(env, a) && InDomains(env, b) && a.normalization == b.normalization
    ensures a == b <==> forall d :: d in Domains ==> RecordsOf(a, d) == RecordsOf(b, d)
  {
    if forall d :: d in Domains ==> RecordsOf(a, d) == RecordsOf(b, d) {
      forall d | d in a.records ensures a.records[d] == b.records[d] { assert RecordsOf(a, d) == RecordsOf(b, d); }
      assert a.records == b.records;
    }
  }

  /**
   * The domain comes back: if it was not noted as changed, it is already there, once settled if anything else was noted;
   * otherwise no id occurs twice in it and it is settled.
   */
  ghost predicate ComesBack(env: Env, d: Name, goal: seq<Record>, other: seq<Record>, changed: bool) {
    if SameRecords(goal, other) then goal == (if changed then SettleList(env, d, other) else other)
    else Unique(goal) && SettledList(env, d, goal)
  }

  lemma LeadsBack(env: Env, from: Definition, goal: Definition, c: ChangeSet, side: Side)
    requires Collates(env) && RipeDef(env, from) && RipeDef(env, goal) && Leads(env, c, side, from, goal)
    requires forall d :: d in Domains ==> (d in c.domains <==> !SameRecords(RecordsOf(goal, d), RecordsOf(from, d)))
    ensures Apply(env, from, c, side) == goal <==>
      forall d :: d in Domains ==> ComesBack(env, d, RecordsOf(goal, d), RecordsOf(from, d), !IsEmpty(c))
  {
    ApplyIs(env, from, c, side, goal);
    var r := Apply(env, from, c, side);
    SameDefinition(env, r, goal);
    hide Apply, RipeDef, Leads, SameRecords, IsEmpty, Reached, RipeList, SettleList, SettledList, Unique;
    forall d | d in Domains ensures RecordsOf(r, d) == RecordsOf(goal, d) <==> ComesBack(env, d, RecordsOf(goal, d), RecordsOf(from, d), !IsEmpty(c)) {
      RipeIn(env, goal, d);
      if d in c.domains { ReachedIsGoal(env, d, RecordsOf(r, d), RecordsOf(goal, d)); }
    }
  }

  lemma SameSettledSelf(env: Env, a: Definition)
    ensures SameSettled(env, a, a)
  {
  }

  lemma DiffNames(a: Definition, b: Definition)
    ensures forall d :: d in Domains ==> (d in Diff(a, b).domains <==> !SameRecords(RecordsOf(a, d), RecordsOf(b, d)))
    ensures forall d :: d in Domains ==> (SameRecords(RecordsOf(a, d), RecordsOf(b, d)) <==> SameRecords(RecordsOf(b, d), RecordsOf(a, d)))
    ensures IsEmpty(Diff(a, b)) <==> a.normalization == b.normalization && forall d :: d in Domains ==> SameRecords(RecordsOf(a, d), RecordsOf(b, d))
  {
    hide DiffRecords, LastWith;
    forall d | d in Domains ensures d in Diff(a, b).domains <==> !SameRecords(RecordsOf(a, d), RecordsOf(b, d)) { DiffSays(RecordsOf(a, d), RecordsOf(b, d)); }
    forall d | d in Domains ensures SameRecords(RecordsOf(a, d), RecordsOf(b, d)) <==> SameRecords(RecordsOf(b, d), RecordsOf(a, d)) { }
    if Diff(a, b).domains != map[] { var d :| d in Diff(a, b).domains; assert d in Domains; }
  }

  /**
   * For all snapshots that commands leave: undoing the change from a to b gives a back, and redoing it b, exactly if every
   * domain comes back.
   */
  lemma UndoRestoresIff(env: Env, a: Definition, b: Definition)
    requires Collates(env) && RipeDef(env, a) && RipeDef(env, b)
    ensures Apply(env, b, Diff(a, b), Before) == a <==>
      forall d :: d in Domains ==> ComesBack(env, d, RecordsOf(a, d), RecordsOf(b, d), !IsEmpty(Diff(a, b)))
    ensures Apply(env, a, Diff(a, b), After) == b <==>
      forall d :: d in Domains ==> ComesBack(env, d, RecordsOf(b, d), RecordsOf(a, d), !IsEmpty(Diff(a, b)))
  {
    hide RipeDef, Leads, SameRecords, Apply, Diff, ComesBack, SameSettled, IsEmpty;
    SameSettledSelf(env, a); SameSettledSelf(env, b);
    DiffLeads(env, a, b, b);
    DiffLeadsOn(env, a, b, a);
    DiffNames(a, b);
    LeadsBack(env, b, a, Diff(a, b), Before);
    LeadsBack(env, a, b, Diff(a, b), After);
  }

  ghost predicate UniqueIds(def: Definition) {
    forall d :: d in Domains ==> Unique(RecordsOf(def, d))
  }

  /** Where ids are unique, a change set does nothing if it is empty and else leads to its goal, settled. */
  lemma LeadsToSettled(env: Env, from: Definition, goal: Definition, c: ChangeSet, side: Side)
    requires Collates(env) && RipeDef(env, from) && RipeDef(env, goal) && UniqueIds(goal) && Leads(env, c, side, from, goal)
    requires forall d :: d in Domains && d !in c.domains ==> SettleList(env, d, RecordsOf(from, d)) == SettleList(env, d, RecordsOf(goal, d))
    ensures Apply(env, from, c, side) == if IsEmpty(c) then from else Normalize(env, goal)
  {
    if IsEmpty(c) { SkipAll(env, from, c, side, Domains); }
    else {
      ApplyIs(env, from, c, side, goal);
      NormalDef(env, goal);
      var r, n := Apply(env, from, c, side), Normalize(env, goal);
      SameDefinition(env, r, n);
      hide Apply, RipeDef, Leads, IsEmpty, Reached, RipeList, SettleList, Unique, Normalize, UniqueIds;
      forall d | d in Domains ensures RecordsOf(r, d) == RecordsOf(n, d) {
        RipeIn(env, goal, d);
        assert Unique(RecordsOf(goal, d)) by { UniqueIn(goal, d); }
        if d in c.domains { ReachedIsGoal(env, d, RecordsOf(r, d), RecordsOf(goal, d)); }
      }
    }
  }

  lemma UniqueIn(def: Definition, d: Name)
    requires UniqueIds(def) && d in Domains
    ensures Unique(RecordsOf(def, d))
  {
  }

  lemma {:induction false} SkipAll(env: Env, def: Definition, c: ChangeSet, side: Side, ds: seq<Name>)
    requires c.domains == map[]
    ensures ApplyDomains(env, def, c, side, ds) == def
    decreases |ds|
  {
    if ds != [] { SkipAll(env, def, c, side, ds[1..]); }
  }

  lemma NormalDef(env: Env, def: Definition)
    requires Collates(env) && RipeDef(env, def)
    ensures InDomains(env, Normalize(env, def)) && Normalize(env, def).normalization == def.normalization
    ensures forall d :: d in Domains ==> RecordsOf(Normalize(env, def), d) == SettleList(env, d, RecordsOf(def, d))
    ensures Normalize(env, def) == def <==> Settled(env, def)
    ensures Settled(env, Normalize(env, def))
  {
    hide Sort, NormRecords, SettleList, RipeList, SettledList;
    var n := Normalize(env, def);
    forall d | d in Domains
      ensures RecordsOf(n, d) == SettleList(env, d, RecordsOf(def, d)) && SettledList(env, d, RecordsOf(n, d))
      ensures RecordsOf(n, d) == RecordsOf(def, d) <==> SettledList(env, d, RecordsOf(def, d))
    {
      NormalList(env, d, RecordsOf(def, d));
      SettleSorted(env, d, RecordsOf(def, d));
      SettledIffFixed(env, d, RecordsOf(def, d));
    }
    SameDefinition(env, n, def);
  }

  lemma SameLists(env: Env, d: Name, xs: seq<Record>, ys: seq<Record>)
    requires Collates(env) && Sorted(env, d, xs) && Sorted(env, d, ys) && Unique(xs) && Unique(ys) && SameRecords(xs, ys)
    ensures xs == ys
  {
    hide LastWith;
    forall r ensures r in xs <==> r in ys { LastWithIs(xs, r.id); LastWithIs(ys, r.id); }
    SortedDetermined(env, d, xs, ys);
  }

  /** With unique ids a change set is empty exactly if nothing changed. */
  lemma EmptyIff(env: Env, a: Definition, b: Definition)
    requires Collates(env) && RipeDef(env, a) && RipeDef(env, b) && UniqueIds(a) && UniqueIds(b)
    ensures IsEmpty(Diff(a, b)) <==> a == b
    ensures forall d :: d in Domains && d !in Diff(a, b).domains ==> RecordsOf(a, d) == RecordsOf(b, d)
  {
    DiffNames(a, b);
    hide Diff, IsEmpty, SameRecords;
    forall d | d in Domains && SameRecords(RecordsOf(a, d), RecordsOf(b, d)) ensures RecordsOf(a, d) == RecordsOf(b, d) {
      SameLists(env, d, RecordsOf(a, d), RecordsOf(b, d));
    }
    if a.normalization == b.normalization { SameDefinition(env, a, b); }
    if a == b { forall d | d in Domains ensures SameRecords(RecordsOf(a, d), RecordsOf(b, d)) { SameSelf(RecordsOf(a, d)); } }
  }

  lemma SameSelf(xs: seq<Record>)
    ensures SameRecords(xs, xs)
  {
  }

  /** r is b, but for what one more normalization changes. */
  ghost predicate UpTo(env: Env, r: Definition, b: Definition) {
    RipeDef(env, r) && RipeDef(env, b) && Normalize(env, r) == Normalize(env, b)
  }

  lemma UpToSame(env: Env, r: Definition, b: Definition)
    requires Collates(env) && UpTo(env, r, b)
    ensures r.normalization == b.normalization && SameSettled(env, r, b)
    ensures forall d :: d in Domains ==> SettleList(env, d, RecordsOf(r, d)) == SettleList(env, d, RecordsOf(b, d))
  {
    NormalDef(env, r);
    NormalDef(env, b);
    hide Normalize, LastWith, SettleList, RipeList, SettleOpt;
    forall d | d in Domains ensures AllSame(env, d, RecordsOf(r, d), RecordsOf(b, d)) {
      forall id ensures SameOnceSettled(env, d, RecordsOf(r, d), RecordsOf(b, d), id) { SettledSame(env, d, RecordsOf(r, d), RecordsOf(b, d), id); }
    }
  }

  lemma SettledSame(env: Env, d: Name, xs: seq<Record>, ys: seq<Record>, id: Name)
    requires RipeList(env, d, xs) && RipeList(env, d, ys) && SettleList(env, d, xs) == SettleList(env, d, ys)
    ensures SameOnceSettled(env, d, xs, ys, id)
  {
    hide LastWith, SettleOpt, Ripe;
    LastSettled(env, d, xs, id);
    LastSettled(env, d, ys, id);
  }

  /** With unique ids, undo from anything that is b up to normalization gives a, settled, and redo from anything that is a gives b. */
  lemma UndoUpTo(env: Env, r: Definition, a: Definition, b: Definition)
    requires Collates(env) && RipeDef(env, a) && RipeDef(env, b) && UniqueIds(a) && UniqueIds(b)
    ensures UpTo(env, r, b) ==> Apply(env, r, Diff(a, b), Before) == if a == b then r else Normalize(env, a)
    ensures UpTo(env, r, a) ==> Apply(env, r, Diff(a, b), After) == if a == b then r else Normalize(env, b)
  {
    EmptyIff(env, a, b);
    hide Apply, Diff, Normalize, IsEmpty, UniqueIds, Leads, SettleList, SameSettled;
    if UpTo(env, r, b) {
      UpToSame(env, r, b);
      DiffLeads(env, a, b, r);
      LeadsToSettled(env, r, a, Diff(a, b), Before);
    }
    if UpTo(env, r, a) {
      UpToSame(env, r, a);
      DiffLeadsOn(env, a, b, r);
      LeadsToSettled(env, r, b, Diff(a, b), After);
    }
  }

  /**
   * With unique ids, as the validator demands, undo gives exactly the snapshot before, and redo exactly the one after, if and
   * only if nothing changed or that snapshot is settled.
   */
  lemma UndoRedoIff(env: Env, a: Definition, b: Definition)
    requires Collates(env) && RipeDef(env, a) && RipeDef(env, b) && UniqueIds(a) && UniqueIds(b)
    ensures Apply(env, b, Diff(a, b), Before) == a <==> a == b || Settled(env, a)
    ensures Apply(env, a, Diff(a, b), After) == b <==> a == b || Settled(env, b)
  {
    hide Apply, Diff, Normalize, UniqueIds, RipeDef, Settled;
    UndoUpTo(env, b, a, b);
    UndoUpTo(env, a, a, b);
    NormalDef(env, a);
    NormalDef(env, b);
  }
}
