/** The asset document: mutations, transactions that roll back, and the history that their change sets make. */
module AssetHistory {
  import opened Bytes
  import opened AssetChanges
  import opened AssetUndo

  /** What a command may do to a document within a transaction; an attempt catches whatever its operations throw. */
  datatype Op =
    | ReplaceUpdates(domain: Name, updates: seq<Change>, side: Side, notify: bool)
    | ReplaceList(domain: Name, records: seq<Record>, notify: bool)
    | SetScalar(name: Name, value: string, notify: bool)
    | ReplaceDefinition(candidate: Definition, valid: bool, notify: bool)
    | RestoreSnapshot(snapshot: Definition, notify: bool)
    | Fail
    | Nested(ops: seq<Op>)
    | Attempt(ops: seq<Op>)

  datatype Doc = Doc(definition: Definition, version: nat, inTransaction: bool)

  /** Where the document stands afterwards, and whether an error was thrown. */
  datatype Ending = Ending(doc: Doc, threw: bool)

  function Changed(doc: Doc, def: Definition, notify: bool): Ending {
    Ending(doc.(definition := def, version := doc.version + if notify then 1 else 0), false)
  }

  function Do(env: Env, doc: Doc, op: Op): Ending
    decreases op
  {
    match op
    case ReplaceUpdates(domain, updates, side, notify) =>
      if domain in Domains then Changed(doc, ReplaceChanged(env, doc.definition, domain, updates, side), notify) else Ending(doc, true)
    case ReplaceList(domain, records, notify) =>
      if domain in Domains then Changed(doc, Replace(env, doc.definition, domain, records), notify) else Ending(doc, true)
    case SetScalar(name, value, notify) =>
      if name == "normalization" then Changed(doc, SetNormalization(env, doc.definition, value), notify) else Ending(doc, true)
    case ReplaceDefinition(candidate, valid, notify) =>
      if valid then Changed(doc, Normalize(env, candidate), notify) else Ending(doc, false)
    case RestoreSnapshot(snapshot, notify) => Changed(doc, Normalize(env, snapshot), notify)
    case Fail => Ending(doc, true)
    case Nested(ops) => if doc.inTransaction then DoAll(env, doc, ops) else Transact(env, doc, ops)
    case Attempt(ops) => Ending(DoAll(env, doc, ops).doc, false)
  }

  /** The operations in turn, up to the first that throws. */
  function DoAll(env: Env, doc: Doc, ops: seq<Op>): Ending
    decreases ops, 0
  {
    if ops == [] then Ending(doc, false)
    else
      var first := Do(env, doc, ops[0]);
      if first.threw then first else DoAll(env, first.doc, ops[1..])
  }

  /** An outermost transaction. */
  function Transact(env: Env, doc: Doc, ops: seq<Op>): Ending
    decreases ops, 1
  {
    var r := DoAll(env, doc.(inTransaction := true), ops);
    if r.threw then Ending(r.doc.(definition := doc.definition, inTransaction := false), true)
    else
      var changed := !IsEmpty(Diff(doc.definition, r.doc.definition));
      Ending(r.doc.(version := r.doc.version + if changed then 1 else 0, inTransaction := false), false)
  }

  /* ---------- transactions ---------- */

  lemma {:induction false} FlagStays(env: Env, doc: Doc, ops: seq<Op>)
    requires doc.inTransaction
    ensures DoAll(env, doc, ops).doc.inTransaction && DoAll(env, doc, ops).doc.version >= doc.version
    decreases ops, 0
  {
    if ops != [] {
      FlagStaysOne(env, doc, ops[0]);
      FlagStays(env, Do(env, doc, ops[0]).doc, ops[1..]);
    }
  }

  lemma {:induction false} FlagStaysOne(env: Env, doc: Doc, op: Op)
    requires doc.inTransaction
    ensures Do(env, doc, op).doc.inTransaction && Do(env, doc, op).doc.version >= doc.version
    decreases op
  {
    if op.Nested? || op.Attempt? { FlagStays(env, doc, op.ops); }
  }

  /** Whatever the definition and the operations are, a transaction that throws leaves the definition as it was. */
  lemma ThrowRollsBack(env: Env, doc: Doc, ops: seq<Op>)
    requires !doc.inTransaction
    ensures var r := Transact(env, doc, ops);
      && !r.doc.inTransaction && r.doc.version >= doc.version
      && (r.threw ==> r.doc.definition == doc.definition)
      && (r.threw <==> DoAll(env, doc.(inTransaction := true), ops).threw)
  {
    hide DoAll, Diff;
    FlagStays(env, doc.(inTransaction := true), ops);
  }

  /* ---------- what operations leave behind ---------- */

  /**
   * What is assumed of the normal form of a record apart from its parent: the parent plays no part in it, a second pass no
   * longer depends on the index and changes neither the id nor the order, and a third changes nothing.
   */
  ghost predicate Settles(env: Env) {
    && (forall d, r: Record, p, i: nat :: env.tidy(d, r.(parent := p), i) == env.tidy(d, r, i).(parent := p))
    && (forall d, r, i: nat :: TidiesTwice(env, d, env.tidy(d, r, i)))
    && (forall v :: env.normScalar(env.normScalar(v)) == env.normScalar(v))
  }

  ghost predicate TidiesTwice(env: Env, d: Name, r: Record) {
    var s := env.tidy(d, r, 0);
    && s.id == r.id && s.order == r.order
    && (forall i: nat :: env.tidy(d, r, i) == s && env.tidy(d, s, i) == s)
  }

  lemma {:induction false} TrimEndTwice(s: Name)
    ensures TrimEnd(TrimEnd(s)) == TrimEnd(s)
  {
    if s != "" && IsSpace(s[|s| - 1]) { TrimEndTwice(s[..|s| - 1]); }
  }

  lemma {:induction false} TrimStartTwice(s: Name)
    ensures TrimStart(s) == "" || !IsSpace(TrimStart(s)[0])
  {
    if s != "" && IsSpace(s[0]) { TrimStartTwice(s[1..]); }
  }

  lemma {:induction false} TrimEndKeepsStart(s: Name)
    requires s == "" || !IsSpace(s[0])
    ensures TrimEnd(s) == "" || !IsSpace(TrimEnd(s)[0])
    decreases |s|
  {
    if s != "" && IsSpace(s[|s| - 1]) { TrimEndKeepsStart(s[..|s| - 1]); }
  }

  lemma TrimTwice(s: Name)
    ensures Trim(Trim(s)) == Trim(s)
  {
    TrimStartTwice(s);
    TrimEndKeepsStart(TrimStart(s));
    TrimEndTwice(TrimStart(s));
  }

  /** After one normalization of its parent, a second only takes an empty parent for none. */
  lemma ParentTwice(p: Option<Name>)
    ensures var q := NormParent(p);
      && NormParent(q) == (if q == Some("") then None else q) && NormParent(NormParent(q)) == NormParent(q)
      && (q == Some("") <==> p.Some? && p.value != "" && Trim(p.value) == "")
  {
    hide Trim;
    if p.Some? { TrimTwice(p.value); }
  }

  lemma TidyKeepsParent(env: Env, d: Name, r: Record, i: nat)
    requires Settles(env)
    ensures env.tidy(d, r, i).parent == r.parent
  {
    assert r.(parent := r.parent) == r;
  }

  /** Normalization leaves ripe records. */
  lemma NormedIsRipe(env: Env, d: Name, r: Record, i: nat)
    requires Settles(env)
    ensures Ripe(env, d, NormRecord(env, d, r, i))
  {
    hide Trim;
    var t := env.tidy(d, r, i);
    ParentTwice(r.parent);
    TidyKeepsParent(env, d, r, i);
    assert TidiesTwice(env, d, t);
    var u := env.tidy(d, t, 0);
    forall j: nat ensures env.tidy(d, t, j) == u && env.tidy(d, u, j) == u { }
    TidyKeepsParent(env, d, t, 0);
    if d == "parts" {
      var n := t.(parent := NormParent(r.parent));
      PartTwice(env, t, NormParent(r.parent));
    }
  }

  lemma PartTwice(env: Env, t: Record, p: Option<Name>)
    requires Settles(env) && TidiesTwice(env, "parts", t)
    requires NormParent(NormParent(p)) == NormParent(p) && NormParent(p) == if p == Some("") then None else p
    ensures Ripe(env, "parts", t.(parent := p))
  {
    hide Trim, NormParent;
    var n, u := t.(parent := p), env.tidy("parts", t, 0);
    forall j: nat ensures NormRecord(env, "parts", n, j) == u.(parent := NormParent(p)) {
      assert env.tidy("parts", n, j) == env.tidy("parts", t, j).(parent := p);
    }
    forall j: nat ensures NormRecord(env, "parts", u.(parent := NormParent(p)), j) == u.(parent := NormParent(p)) {
      assert env.tidy("parts", u.(parent := NormParent(p)), j) == env.tidy("parts", u, j).(parent := NormParent(p));
    }
  }

  /** Normalization leaves ripe snapshots. */
  lemma NormalizeRipens(env: Env, def: Definition)
    requires Collates(env) && Settles(env)
    ensures RipeDef(env, Normalize(env, def))
  {
    hide Sort, Ripe, Sorted;
    forall d | d in Domains ensures RipeList(env, d, Normalize(env, def).records[d]) {
      var xs := NormRecords(env, d, RecordsOf(def, d));
      SortSorts(env, d, xs);
      forall x | x in Sort(env, d, xs) ensures Ripe(env, d, x) {
        assert x in multiset(Sort(env, d, xs));
        assert x in xs;
        NormedInList(env, d, RecordsOf(def, d), x);
      }
    }
  }

  lemma NormedInList(env: Env, d: Name, xs: seq<Record>, x: Record)
    requires Settles(env) && x in NormRecords(env, d, xs)
    ensures Ripe(env, d, x)
  {
    hide Ripe, Settles;
    var i :| 0 <= i < |xs| && NormRecords(env, d, xs)[i] == x;
    NormedIsRipe(env, d, xs[i], i);
  }

  /** So whatever operations do, they leave ripe snapshots. */
  lemma {:induction false} DoAllRipens(env: Env, doc: Doc, ops: seq<Op>)
    requires Collates(env) && Settles(env) && RipeDef(env, doc.definition)
    ensures RipeDef(env, DoAll(env, doc, ops).doc.definition)
    decreases ops, 0
  {
    hide RipeDef, Collates, Settles, Normalize;
    if ops != [] {
      DoRipens(env, doc, ops[0]);
      DoAllRipens(env, Do(env, doc, ops[0]).doc, ops[1..]);
    }
  }

  lemma {:induction false} DoRipens(env: Env, doc: Doc, op: Op)
    requires Collates(env) && Settles(env) && RipeDef(env, doc.definition)
    ensures RipeDef(env, Do(env, doc, op).doc.definition)
    decreases op
  {
    hide RipeDef, Collates, Settles, Normalize, UpdateAll, ById, Values;
    match op
    case ReplaceUpdates(domain, updates, side, _) =>
      NormalizeRipens(env, doc.definition.(records := doc.definition.records[domain := Values(UpdateAll(ById(RecordsOf(doc.definition, domain)), updates, side))]));
    case ReplaceList(domain, records, _) => NormalizeRipens(env, doc.definition.(records := doc.definition.records[domain := records]));
    case SetScalar(_, value, _) => NormalizeRipens(env, doc.definition.(normalization := value));
    case ReplaceDefinition(candidate, _, _) => NormalizeRipens(env, candidate);
    case RestoreSnapshot(snapshot, _) => NormalizeRipens(env, snapshot);
    case Fail =>
    case Nested(ops) => DoAllRipens(env, doc.(inTransaction := true), ops); if doc.inTransaction { DoAllRipens(env, doc, ops); }
    case Attempt(ops) => DoAllRipens(env, doc, ops);
  }

  lemma TransactRipens(env: Env, doc: Doc, ops: seq<Op>)
    requires Collates(env) && Settles(env) && RipeDef(env, doc.definition) && !doc.inTransaction
    ensures RipeDef(env, Transact(env, doc, ops).doc.definition) && !Transact(env, doc, ops).doc.inTransaction
  {
    hide RipeDef, Collates, Settles, DoAll, Diff;
    DoAllRipens(env, doc.(inTransaction := true), ops);
  }

  /**
   * The change set of a transaction, whatever it did: with unique ids, undo is exact if and only if nothing changed or the
   * definition before was settled, redo likewise with the definition after; and there is one more version exactly for a change.
   */
  lemma TransactionUndoes(env: Env, doc: Doc, ops: seq<Op>)
    requires Collates(env) && Settles(env) && RipeDef(env, doc.definition) && !doc.inTransaction
    requires UniqueIds(doc.definition) && UniqueIds(Transact(env, doc, ops).doc.definition)
    ensures var r := Transact(env, doc, ops); var a, b := doc.definition, r.doc.definition;
      && (Apply(env, b, Diff(a, b), Before) == a <==> a == b || Settled(env, a))
      && (Apply(env, a, Diff(a, b), After) == b <==> a == b || Settled(env, b))
      && r.doc.version == DoAll(env, doc.(inTransaction := true), ops).doc.version + (if r.threw || a == b then 0 else 1)
  {
    hide Settled, Collates, Settles, DoAll, Apply, Diff, UniqueIds, RipeDef, IsEmpty;
    var r := Transact(env, doc, ops);
    FlagStays(env, doc.(inTransaction := true), ops);
    TransactRipens(env, doc, ops);
    UndoRedoIff(env, doc.definition, r.doc.definition);
    EmptyIff(env, doc.definition, r.doc.definition);
  }

  /* ---------- putting a change set in is itself a transaction ---------- */

  function DomainOps(c: ChangeSet, side: Side, ds: seq<Name>): seq<Op> {
    if ds == [] then []
    else (if ds[0] in c.domains then [ReplaceUpdates(ds[0], c.domains[ds[0]], side, false)] else []) + DomainOps(c, side, ds[1..])
  }

  function OpsOf(c: ChangeSet, side: Side): seq<Op> {
    DomainOps(c, side, Domains)
      + (if c.scalar.None? then [] else [SetScalar("normalization", if side.Before? then c.scalar.value.0 else c.scalar.value.1, false)])
  }

  lemma {:induction false} DomainOpsApply(env: Env, doc: Doc, c: ChangeSet, side: Side, ds: seq<Name>, rest: seq<Op>)
    requires forall d :: d in ds ==> d in Domains
    ensures DoAll(env, doc, DomainOps(c, side, ds) + rest) == DoAll(env, doc.(definition := ApplyDomains(env, doc.definition, c, side, ds)), rest)
    decreases |ds|
  {
    hide ReplaceChanged;
    if ds == [] { assert DomainOps(c, side, ds) + rest == rest; }
    else {
      var d := ds[0];
      assert d in Domains && forall e :: e in ds[1..] ==> e in ds;
      var more := DomainOps(c, side, ds[1..]) + rest;
      if d in c.domains {
        var op, next := ReplaceUpdates(d, c.domains[d], side, false), doc.(definition := ReplaceChanged(env, doc.definition, d, c.domains[d], side));
        assert DomainOps(c, side, ds) + rest == [op] + more;
        assert ([op] + more)[1..] == more;
        assert Do(env, doc, op) == Ending(next, false);
        DomainOpsApply(env, next, c, side, ds[1..], rest);
      } else {
        assert DomainOps(c, side, ds) + rest == more;
        DomainOpsApply(env, doc, c, side, ds[1..], rest);
      }
    }
  }

  lemma OpsOfApply(env: Env, doc: Doc, c: ChangeSet, side: Side)
    requires !doc.inTransaction
    ensures !Transact(env, doc, OpsOf(c, side)).threw
    ensures Transact(env, doc, OpsOf(c, side)).doc.definition == Apply(env, doc.definition, c, side)
  {
    hide ApplyDomains, DomainOps, Normalize;
    var inside := doc.(inTransaction := true);
    var last := if c.scalar.None? then [] else [SetScalar("normalization", if side.Before? then c.scalar.value.0 else c.scalar.value.1, false)];
    DomainOpsApply(env, inside, c, side, Domains, last);
    if last != [] { assert last[1..] == []; }
  }

  /* ---------- histories ---------- */

  /** The definitions between commands, oldest first, and the change sets noted on the way. */
  datatype Trace = Trace(states: seq<Definition>, changes: seq<ChangeSet>)

  /** Runs commands, each in a transaction of its own; a command that throws is not noted. */
  function Perform(env: Env, doc: Doc, commands: seq<seq<Op>>): Trace
    decreases |commands|
  {
    if commands == [] then Trace([doc.definition], [])
    else
      var r := Transact(env, doc, commands[0]);
      var rest := Perform(env, r.doc, commands[1..]);
      if r.threw then rest
      else Trace([doc.definition] + rest.states, [Diff(doc.definition, r.doc.definition)] + rest.changes)
  }

  function UndoTo(env: Env, def: Definition, changes: seq<ChangeSet>, k: nat): Definition
    requires k <= |changes|
    decreases |changes|
  {
    if k == |changes| then def
    else UndoTo(env, Apply(env, def, changes[|changes| - 1], Before), changes[..|changes| - 1], k)
  }

  function RedoFrom(env: Env, def: Definition, changes: seq<ChangeSet>, k: nat): Definition
    requires k <= |changes|
    decreases |changes| - k
  {
    if k == |changes| then def else RedoFrom(env, Apply(env, def, changes[k], After), changes, k + 1)
  }

  /** Between neighbouring states stands the change set from one to the other. */
  ghost predicate Chain(env: Env, t: Trace) {
    && |t.states| == |t.changes| + 1
    && (forall i :: 0 <= i < |t.states| ==> RipeDef(env, t.states[i]))
    && (forall i :: 0 <= i < |t.changes| ==> t.changes[i] == Diff(t.states[i], t.states[i + 1]))
  }

  lemma {:induction false} PerformChains(env: Env, doc: Doc, commands: seq<seq<Op>>)
    requires Collates(env) && Settles(env) && RipeDef(env, doc.definition) && !doc.inTransaction
    ensures var t := Perform(env, doc, commands); Chain(env, t) && t.states[0] == doc.definition
    decreases |commands|
  {
    hide RipeDef, Collates, Settles, Transact, Diff;
    if commands != [] {
      ThrowRollsBack(env, doc, commands[0]);
      TransactRipens(env, doc, commands[0]);
      PerformChains(env, Transact(env, doc, commands[0]).doc, commands[1..]);
    }
  }

  /** No change was noted from k up to n. */
  ghost predicate Still(t: Trace, k: nat, n: nat)
    requires |t.states| == |t.changes| + 1 && n <= |t.changes|
  {
    forall i :: k <= i < n ==> t.states[i] == t.states[i + 1]
  }

  lemma {:induction false} StillSame(t: Trace, k: nat, n: nat)
    requires |t.states| == |t.changes| + 1 && k <= n <= |t.changes| && Still(t, k, n)
    ensures t.states[k] == t.states[n]
    decreases n - k
  {
    if k < n { StillSame(t, k + 1, n); }
  }

  /** The definitions of a history have unique ids. */
  ghost predicate UniqueTrace(t: Trace) {
    forall i :: 0 <= i < |t.states| ==> UniqueIds(t.states[i])
  }

  lemma UpToSettled(env: Env, a: Definition)
    requires Collates(env) && RipeDef(env, a)
    ensures RipeDef(env, Normalize(env, a)) && Normalize(env, Normalize(env, a)) == Normalize(env, a) && UpTo(env, Normalize(env, a), a) && UpTo(env, a, a)
  {
    NormalDef(env, a);
    SettledIsRipe(env, Normalize(env, a));
    NormalDef(env, Normalize(env, a));
  }

  lemma SettledIsRipe(env: Env, a: Definition)
    requires Settled(env, a)
    ensures RipeDef(env, a)
  {
    hide NormRecord, Sorted;
    forall d | d in a.records ensures RipeList(env, d, a.records[d]) {
      forall r | r in a.records[d] ensures Ripe(env, d, r) { assert Fixed(env, d, r); }
    }
  }

  /** Undoing from anything that is the n-th state up to normalization. */
  lemma {:induction false} UndoReaches(env: Env, t: Trace, r: Definition, n: nat, k: nat)
    requires Collates(env) && Chain(env, t) && UniqueTrace(t) && k <= n <= |t.changes| && UpTo(env, r, t.states[n])
    ensures UndoTo(env, r, t.changes[..n], k) == if Still(t, k, n) then r else Normalize(env, t.states[k])
    decreases n
  {
    hide RipeDef, Collates, Apply, Diff, UniqueIds, Normalize, UpTo;
    if k < n {
      var a, b := t.states[n - 1], t.states[n];
      UndoUpTo(env, r, a, b);
      UpToSettled(env, a);
      assert t.changes[..n][..n - 1] == t.changes[..n - 1] && t.changes[..n][n - 1] == t.changes[n - 1];
      UndoReaches(env, t, if a == b then r else Normalize(env, a), n - 1, k);
      assert Still(t, k, n) <==> Still(t, k, n - 1) && a == b;
      if Still(t, k, n - 1) && a != b { StillSame(t, k, n - 1); }
    }
  }

  lemma {:induction false} RedoReaches(env: Env, t: Trace, r: Definition, k: nat)
    requires Collates(env) && Chain(env, t) && UniqueTrace(t) && k <= |t.changes| && UpTo(env, r, t.states[k])
    ensures RedoFrom(env, r, t.changes, k) == if Still(t, k, |t.changes|) then r else Normalize(env, t.states[|t.changes|])
    decreases |t.changes| - k
  {
    hide RipeDef, Collates, Apply, Diff, UniqueIds, Normalize, UpTo;
    if k < |t.changes| {
      var a, b := t.states[k], t.states[k + 1];
      UndoUpTo(env, r, a, b);
      UpToSettled(env, b);
      RedoReaches(env, t, if a == b then r else Normalize(env, b), k + 1);
      assert Still(t, k, |t.changes|) <==> Still(t, k + 1, |t.changes|) && a == b;
      if Still(t, k + 1, |t.changes|) && a != b { StillSame(t, k + 1, |t.changes|); }
    }
  }

  /**
   * For every history of commands with unique ids: undoing back to any point gives exactly the definition of that time if and
   * only if nothing changed since or that definition is settled, and redoing from there gives exactly the last one if and only
   * if nothing changed or that one is settled.
   */
  lemma HistoryReversesIff(env: Env, doc: Doc, commands: seq<seq<Op>>, k: nat)
    requires Collates(env) && Settles(env) && RipeDef(env, doc.definition) && !doc.inTransaction
    requires var t := Perform(env, doc, commands); k <= |t.changes| && UniqueTrace(t)
    ensures var t := Perform(env, doc, commands); var n := |t.changes|;
      && |t.states| == n + 1
      && (UndoTo(env, t.states[n], t.changes, k) == t.states[k] <==> Still(t, k, n) || Settled(env, t.states[k]))
      && (RedoFrom(env, UndoTo(env, t.states[n], t.changes, k), t.changes, k) == t.states[n] <==> Still(t, k, n) || Settled(env, t.states[n]))
  {
    hide Settled, RipeDef, Collates, Apply, Diff, UniqueIds, UndoTo, RedoFrom, Perform, Normalize, Settles, UpTo;
    var t := Perform(env, doc, commands);
    var n := |t.changes|;
    PerformChains(env, doc, commands);
    assert t.changes[..n] == t.changes;
    UpToSettled(env, t.states[n]); UpToSettled(env, t.states[k]);
    UndoReaches(env, t, t.states[n], n, k);
    if Still(t, k, n) { StillSame(t, k, n); }
    RedoReaches(env, t, UndoTo(env, t.states[n], t.changes, k), k);
    NormalDef(env, t.states[k]); NormalDef(env, t.states[n]);
  }

  /* ---------- operations that leave settled definitions ---------- */

  /** A parent of blanks, of which trimming leaves an empty one. */
  predicate Blank(parent: Option<Name>) { parent.Some? && parent.value != "" && Trim(parent.value) == "" }

  /** One normalization settles the record. */
  ghost predicate Plain(env: Env, d: Name, r: Record) {
    forall i: nat :: Fixed(env, d, NormRecord(env, d, r, i))
  }

  /** Apart from its parent, one normalization settles the record. */
  ghost predicate TidiesOnce(env: Env, d: Name, r: Record) {
    forall i: nat, j: nat :: env.tidy(d, env.tidy(d, r, i), j) == env.tidy(d, r, i)
  }

  /** Then one normalization settles all of it exactly if it is no part with a parent of blanks. */
  lemma PlainIffNotBlank(env: Env, d: Name, r: Record)
    requires Settles(env) && TidiesOnce(env, d, r)
    ensures Plain(env, d, r) <==> d != "parts" || !Blank(r.parent)
  {
    hide Trim;
    ParentTwice(r.parent);
    forall i: nat ensures Fixed(env, d, NormRecord(env, d, r, i)) <==> d != "parts" || !Blank(r.parent) {
      var t := env.tidy(d, r, i);
      var n := NormRecord(env, d, r, i);
      forall j: nat ensures NormRecord(env, d, n, j) == n <==> d != "parts" || !Blank(r.parent) {
        assert d == "parts" ==> env.tidy(d, t.(parent := NormParent(r.parent)), j) == env.tidy(d, t, j).(parent := NormParent(r.parent));
      }
      assert NormRecord(env, d, n, 0) == n <==> d != "parts" || !Blank(r.parent);
    }
    assert Fixed(env, d, NormRecord(env, d, r, 0)) <==> d != "parts" || !Blank(r.parent);
  }

  ghost predicate PlainList(env: Env, d: Name, xs: seq<Record>) {
    forall r :: r in xs ==> Plain(env, d, r)
  }

  ghost predicate PlainDefinition(env: Env, def: Definition) {
    forall d :: d in Domains ==> PlainList(env, d, RecordsOf(def, d))
  }

  ghost predicate PlainUpdates(env: Env, d: Name, updates: seq<Change>, side: Side) {
    forall c :: c in updates && SideOf(c, side).Some? ==> Plain(env, d, SideOf(c, side).value)
  }

  /** The operations hand over only records that one normalization settles. */
  ghost predicate PlainOp(env: Env, op: Op) {
    match op
    case ReplaceUpdates(domain, updates, side, _) => PlainUpdates(env, domain, updates, side)
    case ReplaceList(domain, records, _) => PlainList(env, domain, records)
    case ReplaceDefinition(candidate, _, _) => PlainDefinition(env, candidate)
    case RestoreSnapshot(snapshot, _) => PlainDefinition(env, snapshot)
    case Nested(ops) => forall o :: o in ops ==> PlainOp(env, o)
    case Attempt(ops) => forall o :: o in ops ==> PlainOp(env, o)
    case _ => true
  }

  lemma PlainSettles(env: Env, def: Definition)
    requires Collates(env) && Settles(env) && PlainDefinition(env, def)
    ensures Settled(env, Normalize(env, def))
  {
    hide Sort, Plain, NormRecord, Sorted;
    forall d | d in Domains ensures SettledList(env, d, Normalize(env, def).records[d]) {
      var xs := NormRecords(env, d, RecordsOf(def, d));
      SortSorts(env, d, xs);
      forall x | x in Sort(env, d, xs) ensures Fixed(env, d, x) {
        assert x in multiset(Sort(env, d, xs));
        assert x in xs;
        PlainInList(env, d, RecordsOf(def, d), x);
      }
    }
  }

  lemma PlainInList(env: Env, d: Name, xs: seq<Record>, x: Record)
    requires PlainList(env, d, xs) && x in NormRecords(env, d, xs)
    ensures Fixed(env, d, x)
  {
    hide Fixed, NormRecord;
    var i :| 0 <= i < |xs| && NormRecords(env, d, xs)[i] == x;
    assert Plain(env, d, xs[i]);
  }

  lemma FixedIsPlain(env: Env, d: Name, xs: seq<Record>)
    requires SettledList(env, d, xs)
    ensures PlainList(env, d, xs)
  {
    hide NormRecord, Sorted;
    forall r | r in xs ensures Plain(env, d, r) { assert Fixed(env, d, r); }
  }

  lemma SettledIsPlain(env: Env, def: Definition)
    requires Settled(env, def)
    ensures PlainDefinition(env, def)
  {
    hide SettledList, PlainList;
    forall d | d in Domains ensures PlainList(env, d, RecordsOf(def, d)) { FixedIsPlain(env, d, RecordsOf(def, d)); }
  }

  lemma {:induction false} PutFrom(m: Entries, k: Name, v: Record, e: (Name, Record))
    requires e in Put(m, k, v)
    ensures e == (k, v) || e in m
  {
    if m != [] && m[0].0 != k && e != m[0] { PutFrom(m[1..], k, v, e); }
  }

  lemma {:induction false} DeleteFrom(m: Entries, k: Name, e: (Name, Record))
    requires e in Delete(m, k)
    ensures e in m
  {
    if m != [] && m[0].0 != k && e != m[0] { DeleteFrom(m[1..], k, e); }
  }

  lemma {:induction false} ByIdFrom(xs: seq<Record>, e: (Name, Record))
    requires e in ById(xs)
    ensures e.1 in xs
    decreases |xs|
  {
    if xs != [] {
      var front, last := xs[..|xs| - 1], xs[|xs| - 1];
      PutFrom(ById(front), last.id, last, e);
      if e != (last.id, last) { ByIdFrom(front, e); }
    }
  }

  lemma {:induction false} UpdateAllFrom(m: Entries, changes: seq<Change>, side: Side, e: (Name, Record))
    requires e in UpdateAll(m, changes, side)
    ensures e in m || exists c :: c in changes && SideOf(c, side) == Some(e.1)
    decreases |changes|
  {
    hide Put, Delete;
    if changes != [] {
      var c, u := changes[0], Update(m, changes[0].id, SideOf(changes[0], side));
      UpdateAllFrom(u, changes[1..], side, e);
      if e in u {
        if SideOf(c, side).None? { DeleteFrom(m, c.id, e); } else { PutFrom(m, c.id, SideOf(c, side).value, e); }
      }
    }
  }

  lemma UpdatedIsPlain(env: Env, d: Name, xs: seq<Record>, updates: seq<Change>, side: Side)
    requires PlainList(env, d, xs) && PlainUpdates(env, d, updates, side)
    ensures PlainList(env, d, Values(UpdateAll(ById(xs), updates, side)))
  {
    hide Plain, UpdateAll, ById;
    var m := UpdateAll(ById(xs), updates, side);
    forall r | r in Values(m) ensures Plain(env, d, r) {
      var i :| 0 <= i < |m| && Values(m)[i] == r;
      UpdateAllFrom(ById(xs), updates, side, m[i]);
      if m[i] in ById(xs) { ByIdFrom(xs, m[i]); }
    }
  }

  lemma {:induction false} DoAllSettles(env: Env, doc: Doc, ops: seq<Op>)
    requires Collates(env) && Settles(env) && Settled(env, doc.definition) && forall o :: o in ops ==> PlainOp(env, o)
    ensures Settled(env, DoAll(env, doc, ops).doc.definition)
    decreases ops, 0
  {
    hide Settled, Collates, Settles, Normalize, PlainOp;
    if ops != [] {
      assert ops[0] in ops && forall o :: o in ops[1..] ==> o in ops;
      DoSettles(env, doc, ops[0]);
      DoAllSettles(env, Do(env, doc, ops[0]).doc, ops[1..]);
    }
  }

  lemma ReplacedIsPlain(env: Env, def: Definition, d: Name, xs: seq<Record>)
    requires PlainDefinition(env, def) && PlainList(env, d, xs)
    ensures PlainDefinition(env, def.(records := def.records[d := xs]))
  {
    hide PlainList;
    var next := def.(records := def.records[d := xs]);
    forall e | e in Domains ensures PlainList(env, e, RecordsOf(next, e)) { assert e == d || RecordsOf(next, e) == RecordsOf(def, e); }
  }

  lemma {:induction false} DoSettles(env: Env, doc: Doc, op: Op)
    requires Collates(env) && Settles(env) && Settled(env, doc.definition) && PlainOp(env, op)
    ensures Settled(env, Do(env, doc, op).doc.definition)
    decreases op
  {
    hide Settled, Collates, Settles, Normalize, UpdateAll, ById, Values, PlainDefinition, PlainList, PlainUpdates;
    var def := doc.definition;
    SettledIsPlain(env, def);
    match op
    case ReplaceUpdates(domain, updates, side, _) =>
      if domain in Domains {
        UpdatedIsPlain(env, domain, RecordsOf(def, domain), updates, side) by { PlainIn(env, def, domain); }
        var xs := Values(UpdateAll(ById(RecordsOf(def, domain)), updates, side));
        ReplacedIsPlain(env, def, domain, xs);
        PlainSettles(env, def.(records := def.records[domain := xs]));
      }
    case ReplaceList(domain, records, _) =>
      ReplacedIsPlain(env, def, domain, records);
      PlainSettles(env, def.(records := def.records[domain := records]));
    case SetScalar(_, value, _) =>
      SamePlain(env, def, value);
      PlainSettles(env, def.(normalization := value));
    case ReplaceDefinition(candidate, _, _) => PlainSettles(env, candidate);
    case RestoreSnapshot(snapshot, _) => PlainSettles(env, snapshot);
    case Fail =>
    case Nested(ops) => DoAllSettles(env, doc.(inTransaction := true), ops); if doc.inTransaction { DoAllSettles(env, doc, ops); }
    case Attempt(ops) => DoAllSettles(env, doc, ops);
  }

  lemma PlainIn(env: Env, def: Definition, d: Name)
    requires PlainDefinition(env, def) && d in Domains
    ensures PlainList(env, d, RecordsOf(def, d))
  {
    hide PlainList;
  }

  lemma SamePlain(env: Env, def: Definition, value: string)
    requires PlainDefinition(env, def)
    ensures PlainDefinition(env, def.(normalization := value))
  {
    hide PlainList;
    forall d | d in Domains ensures PlainList(env, d, RecordsOf(def.(normalization := value), d)) {
      assert RecordsOf(def.(normalization := value), d) == RecordsOf(def, d);
    }
  }

  lemma {:induction false} PerformSettles(env: Env, doc: Doc, commands: seq<seq<Op>>)
    requires Collates(env) && Settles(env) && Settled(env, doc.definition) && !doc.inTransaction
    requires forall c, o :: c in commands && o in c ==> PlainOp(env, o)
    ensures SettledTrace(env, Perform(env, doc, commands))
    decreases |commands|
  {
    hide Settled, Collates, Settles, Transact, Diff, PlainOp;
    if commands != [] {
      assert commands[0] in commands && forall c :: c in commands[1..] ==> c in commands;
      TransactSettles(env, doc, commands[0]);
      var r := Transact(env, doc, commands[0]);
      PerformSettles(env, r.doc, commands[1..]);
      var rest := Perform(env, r.doc, commands[1..]);
      if !r.threw { SettledFirst(env, doc.definition, rest, Diff(doc.definition, r.doc.definition)); }
    }
  }

  ghost predicate SettledTrace(env: Env, t: Trace) {
    forall i :: 0 <= i < |t.states| ==> Settled(env, t.states[i])
  }

  lemma SettledFirst(env: Env, a: Definition, rest: Trace, c: ChangeSet)
    requires Settled(env, a) && SettledTrace(env, rest)
    ensures SettledTrace(env, Trace([a] + rest.states, [c] + rest.changes))
  {
    hide Settled;
  }

  lemma TransactSettles(env: Env, doc: Doc, ops: seq<Op>)
    requires Collates(env) && Settles(env) && Settled(env, doc.definition) && !doc.inTransaction && forall o :: o in ops ==> PlainOp(env, o)
    ensures Settled(env, Transact(env, doc, ops).doc.definition) && !Transact(env, doc, ops).doc.inTransaction
  {
    hide Settled, Collates, Settles, DoAll, Diff, PlainOp;
    DoAllSettles(env, doc.(inTransaction := true), ops);
  }

  /**
   * For every history of commands that hand over no part with a parent of blanks, or anything else that takes two passes to
   * settle: undoing to any point gives exactly the definition of that time, and redoing from there exactly the last one.
   */
  lemma HistoryIsReversible(env: Env, doc: Doc, commands: seq<seq<Op>>, k: nat)
    requires Collates(env) && Settles(env) && Settled(env, doc.definition) && !doc.inTransaction
    requires forall c, o :: c in commands && o in c ==> PlainOp(env, o)
    requires var t := Perform(env, doc, commands); k <= |t.changes| && UniqueTrace(t)
    ensures var t := Perform(env, doc, commands); var n := |t.changes|;
      && |t.states| == n + 1
      && UndoTo(env, t.states[n], t.changes, k) == t.states[k]
      && RedoFrom(env, UndoTo(env, t.states[n], t.changes, k), t.changes, k) == t.states[n]
  {
    hide Settled, RipeDef, Collates, UniqueIds, UndoTo, RedoFrom, Perform, Settles, Still, PlainOp;
    SettledIsRipe(env, doc.definition);
    HistoryReversesIff(env, doc, commands, k);
    PerformSettles(env, doc, commands);
  }

  /** A part with a parent of blanks, put in by a command into an empty asset, is not redone as it was. */
  lemma BlankParentIsNotRedone(env: Env, r: Record, normalization: string)
    requires Collates(env) && Settles(env) && Blank(r.parent) && (forall i: nat :: env.tidy("parts", r, i) == r)
    requires env.normScalar(normalization) == normalization
    ensures var a := Definition(map d | d in Domains :: [], normalization);
      var b := Do(env, Doc(a, 0, true), ReplaceUpdates("parts", [Change(r.id, None, Some(r))], After, false)).doc.definition;
      Settled(env, a) && UniqueIds(a) && UniqueIds(b) && Apply(env, a, Diff(a, b), After) != b
  {
    hide Trim, Apply, Diff, Settles, Ripe;
    var a := Definition(map d | d in Domains :: [], normalization);
    var changes := [Change(r.id, None, Some(r))];
    var b := ReplaceChanged(env, a, "parts", changes, After);
    var left := r.(parent := Some(""));
    BlankPart(env, r, a, left, changes);
    hide Domains, Normalize, NormRecord, NormRecords, Sort, UpdateAll, ById, Settled, RipeDef, UniqueIds, Collates, Values, Put, Find;
    SettledIsRipe(env, a);
    NormalizeRipens(env, a.(records := a.records["parts" := [r]]));
    UndoRedoIff(env, a, b);
  }

  ghost predicate EmptyAsset(env: Env, a: Definition) {
    a.records == (map d | d in Domains :: []) && env.normScalar(a.normalization) == a.normalization
  }

  /** What the command makes of the empty asset. */
  lemma BlankPart(env: Env, r: Record, a: Definition, left: Record, changes: seq<Change>)
    requires Settles(env) && Blank(r.parent) && (forall i: nat :: env.tidy("parts", r, i) == r) && left == r.(parent := Some(""))
    requires EmptyAsset(env, a) && changes == [Change(r.id, None, Some(r))]
    ensures var b := ReplaceChanged(env, a, "parts", changes, After);
      && b == Normalize(env, a.(records := a.records["parts" := [r]])) && a != b && Settled(env, a) && !Settled(env, b) && UniqueIds(a) && UniqueIds(b)
  {
    hide Trim, Settles;
    var b := ReplaceChanged(env, a, "parts", changes, After);
    PartsIsDomain();
    OneUpdate(r, changes);
    BlankRecords(env, r, a, left);
    hide Sort, NormRecords, UpdateAll, ById, Normalize, Domains, EmptyAsset;
    TidyLeft(env, r);
    assert left in RecordsOf(b, "parts") && NormRecord(env, "parts", left, 0) != left;
    EmptyIsSettled(env, a);
  }

  lemma EmptyIsSettled(env: Env, a: Definition)
    requires EmptyAsset(env, a)
    ensures Settled(env, a) && UniqueIds(a) && "parts" in a.records && a.records["parts"] == []
  {
  }

  lemma BlankRecords(env: Env, r: Record, a: Definition, left: Record)
    requires EmptyAsset(env, a) && Blank(r.parent) && (forall i: nat :: env.tidy("parts", r, i) == r) && left == r.(parent := Some(""))
    ensures var b := Normalize(env, a.(records := a.records["parts" := [r]]));
      RecordsOf(b, "parts") == [left] && "parts" in b.records && UniqueIds(b)
  {
    hide Trim;
    PartsIsDomain();
    ParentTwice(r.parent);
    assert NormRecords(env, "parts", [r]) == [left];
    OneSorted(env, left);
    var b := Normalize(env, a.(records := a.records["parts" := [r]]));
    assert forall d :: d in Domains && d != "parts" ==> RecordsOf(b, d) == [];
  }

  lemma OneUpdate(r: Record, changes: seq<Change>)
    requires changes == [Change(r.id, None, Some(r))]
    ensures Values(UpdateAll([], changes, After)) == [r] && ById([]) == []
  {
    assert changes[1..] == [] && UpdateAll([], changes, After) == [(r.id, r)];
  }

  lemma OneSorted(env: Env, r: Record)
    ensures Sort(env, "parts", [r]) == [r]
  {
    assert [r][..0] == [];
  }

  lemma TidyLeft(env: Env, r: Record)
    requires Settles(env) && (forall i: nat :: env.tidy("parts", r, i) == r)
    ensures NormRecord(env, "parts", r.(parent := Some("")), 0) == r.(parent := None)
  {
    assert env.tidy("parts", r.(parent := Some("")), 0) == env.tidy("parts", r, 0).(parent := Some(""));
  }

  /** Undo is not exact once an id occurs twice: the earlier of the two records is lost. */
  lemma DuplicateIsLost(env: Env, r: Record, s: Record)
    requires Collates(env) && r.id == s.id && r.parent == s.parent && r.order == s.order && env.normScalar("") == ""
    requires forall d :: Fixed(env, d, r) && Fixed(env, d, s)
    ensures var a := Definition(map d | d in Domains :: if d == "parts" then [r, s] else [], "");
      var b := Definition(map d | d in Domains :: [], "");
      Settled(env, a) && Settled(env, b) && Apply(env, b, Diff(a, b), Before) != a
  {
    hide Apply, Diff, Fixed;
    var a := Definition(map d | d in Domains :: if d == "parts" then [r, s] else [], "");
    var b := Definition(map d | d in Domains :: [], "");
    var parts: seq<Record>, none: seq<Record> := [r, s], [];
    PartsIsDomain();
    assert RecordsOf(a, "parts") == parts && RecordsOf(b, "parts") == none;
    PairSettled(env, r, s);
    hide Domains, SettledList;
    assert Settled(env, a) && Settled(env, b);
    SettledIsRipe(env, a); SettledIsRipe(env, b);
    PairIsNotBack(parts, none);
    UndoRestoresIff(env, a, b);
  }

  lemma PartsIsDomain()
    ensures "parts" in Domains
  {
  }

  lemma PairIsNotBack(parts: seq<Record>, none: seq<Record>)
    requires |parts| == 2 && parts[0].id == parts[1].id && none == []
    ensures !Unique(parts) && !SameRecords(parts, none)
  {
    assert LastWith(parts, parts[1].id) != LastWith(none, parts[1].id);
  }

  lemma PairSettled(env: Env, r: Record, s: Record)
    requires Collates(env) && r.id == s.id && r.parent == s.parent && r.order == s.order
    requires forall d :: Fixed(env, d, r) && Fixed(env, d, s)
    ensures SettledList(env, "parts", [r, s]) && forall d :: SettledList(env, d, [])
  {
    hide Fixed;
  }
}
