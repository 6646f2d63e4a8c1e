/** internal/entx/manager.go: transactions that nest by joining, over the node rows and the
    tombstones of one database. */
module Transactions {
  import opened Inodes

  datatype Tables = Tables(fs: FS, tombstones: seq<Ref>)

  /** Whether the database refuses to begin, to commit, or to roll back. */
  datatype Faults = Faults(begin: bool, commit: bool, rollback: bool) {
    predicate Calm() { !begin && !commit }
  }

  class Database {
    var committed: Tables
    /** The rows as the running code has them: those of the open transaction, of which
        there is at most one whatever the nesting, or else the committed ones. */
    var fs: FS
    var tombstones: seq<Ref>
    var open: bool

    ghost predicate Valid()
      reads this
    {
      !open ==> committed == Tables(fs, tombstones)
    }

    constructor (tables: Tables)
      ensures Valid() && !open && committed == tables
    {
      committed, fs, tombstones, open := tables, tables.fs, tables.tombstones, false;
    }

    /** Work that runs under an open transaction, or is one of its own, leaves no transaction
        behind and commits nothing for its caller. */
    twostate predicate Nested()
      reads this
    {
      Valid() && open == old(open) && (open ==> committed == old(committed))
    }

    /** Would a transaction begun now and ended without error be committed? */
    predicate Lasts(f: Faults)
      reads this
    {
      open || f.Calm()
    }

    /** WithTx up to its callback: joins the transaction of the context, or begins one. */
    method Begin(f: Faults) returns (r: Result<bool>)
      requires Valid()
      modifies this`open
      ensures Valid() && (open <==> old(open) || r.Ok?)
      ensures r == if old(open) then Ok(true) else if f.begin then Err(BeginFailed) else Ok(false)
    {
      if open { return Ok(true); }
      if f.begin { return Err(BeginFailed); }
      open := true;
      return Ok(false);
    }

    /** WithTx after its callback: only the outermost call commits or rolls back. */
    method End(joined: bool, work: Result<()>, f: Faults) returns (r: Result<()>)
      requires open
      modifies this
      ensures joined ==>
                open && r == work && fs == old(fs) && tombstones == old(tombstones) && committed == old(committed)
      ensures !joined ==> !open && Valid() && (r.Ok? <==> work.Ok? && !f.commit)
      ensures !joined ==> committed == if r.Ok? then Tables(old(fs), old(tombstones)) else old(committed)
      ensures !joined && work.Err? && !f.rollback ==> r == work
    {
      if joined { return work; }
      open := false;
      if work.Ok? && !f.commit {
        committed := Tables(fs, tombstones);
        return work;
      }
      fs, tombstones := committed.fs, committed.tombstones;
      if work.Err? { return if f.rollback then Err(RollbackFailed) else work; }
      return Err(CommitFailed);
    }

    /** Statements: they go to the open transaction, or are committed at once. */
    method Put(id: Id, row: Inode)
      requires Valid()
      modifies this
      ensures Nested() && fs == old(fs)[id := row] && tombstones == old(tombstones)
    {
      fs := fs[id := row];
      Settle();
    }

    method Remove(id: Id) returns (r: Result<()>)
      requires Valid()
      modifies this
      ensures Nested() && fs == old(fs) - {id} && tombstones == old(tombstones)
      ensures r == if id in old(fs) then Ok(()) else Err(NotFound)
    {
      if id !in fs { return Err(NotFound); }
      fs := fs - {id};
      Settle();
      return Ok(());
    }

    method Record(refs: seq<Ref>)
      requires Valid()
      modifies this
      ensures Nested() && fs == old(fs) && tombstones == old(tombstones) + refs
    {
      tombstones := tombstones + refs;
      Settle();
    }

    method Settle()
      modifies this`committed
      ensures Valid() && (open ==> committed == old(committed))
    {
      if !open { committed := Tables(fs, tombstones); }
    }

    // -------------------------------------------------------------- any callback

    /** WithTx around any callback. Outermost: the committed rows see all writes of the
        callback, taken flat, or none. Joined: they see nothing yet. */
    method WithTx(fn: Work, f: Faults) returns (r: Result<()>)
      requires Valid()
      modifies this
      ensures Nested()
      ensures old(open) ==> Ran(Tables(old(fs), old(tombstones)), Tables(fs, tombstones), fn, r)
      ensures !old(open) ==> Atomic(old(committed), committed, Flatten(fn), f, r)
      decreases fn, 1
    {
      NestingIsFlat(fn, Tables(fs, tombstones));
      var joined := Begin(f);
      if joined.Err? { return Err(joined.error); }
      r := Do(fn, f);
      r := End(joined.value, r, f);
    }

    /** Runs work with the open transaction in its context. */
    method Do(w: Work, f: Faults) returns (r: Result<()>)
      requires open
      modifies this
      ensures Nested() && Ran(Tables(old(fs), old(tombstones)), Tables(fs, tombstones), w, r)
      decreases w, 0
    {
      match w
      case Nothing => return Ok(());
      case Write(id, row) =>
        Put(id, row);
        return Ok(());
      case Drop(id) => r := Remove(id);
      case Enqueue(refs) =>
        Record(refs);
        return Ok(());
      case Throw(e) => return Err(e);
      case Then(a, b) =>
        r := Do(a, f);
        if r.Ok? { r := Do(b, f); }
      case Recover(a, h) =>
        r := Do(a, f);
        if r.Err? { r := Do(h, f); }
      case IfExists(id, yes, no) =>
        if id in fs { r := Do(yes, f); } else { r := Do(no, f); }
      case InTx(a) => r := WithTx(a, f);
    }
  }

  // ---------------------------------------------------------------- what callbacks mean

  /** What code does with the context it is given. */
  datatype Work =
    | Nothing
    | Write(id: Id, row: Inode)
    | Drop(id: Id)
    | Enqueue(refs: seq<Ref>)
    | Throw(error: Error)
    | Then(first: Work, second: Work)
    /** Goes on with onError when body fails. */
    | Recover(body: Work, onError: Work)
    | IfExists(id: Id, yes: Work, no: Work)
    | InTx(body: Work)

  /** The meaning of work on the tables, as if there were no transactions at all: an error
      leaves behind what was written before it. */
  function Effect(w: Work, t: Tables): (Tables, Result<()>)
    decreases w
  {
    match w
    case Nothing => (t, Ok(()))
    case Write(id, row) => (t.(fs := t.fs[id := row]), Ok(()))
    case Drop(id) => if id in t.fs then (t.(fs := t.fs - {id}), Ok(())) else (t, Err(NotFound))
    case Enqueue(refs) => (t.(tombstones := t.tombstones + refs), Ok(()))
    case Throw(e) => (t, Err(e))
    case Then(a, b) => var r := Effect(a, t); if r.1.Err? then r else Effect(b, r.0)
    case Recover(a, h) => var r := Effect(a, t); if r.1.Err? then Effect(h, r.0) else r
    case IfExists(id, yes, no) => if id in t.fs then Effect(yes, t) else Effect(no, t)
    case InTx(a) => Effect(a, t)
  }

  ghost predicate Ran(before: Tables, after: Tables, w: Work, r: Result<()>) {
    after == Effect(w, before).0 && r == Effect(w, before).1
  }

  /** All writes on success, none on any error: of the work, of begin, of commit. */
  ghost predicate Atomic(before: Tables, after: Tables, fn: Work, f: Faults, r: Result<()>) {
    (r.Ok? <==> f.Calm() && Effect(fn, before).1.Ok?)
    && after == (if r.Ok? then Effect(fn, before).0 else before)
    && (!f.begin && !f.rollback && Effect(fn, before).1.Err? ==> r == Effect(fn, before).1)
  }

  // ---------------------------------------------------------------- nesting

  /** The same work with the nested transactions taken out. */
  function Flatten(w: Work): Work {
    match w
    case Then(a, b) => Then(Flatten(a), Flatten(b))
    case Recover(a, h) => Recover(Flatten(a), Flatten(h))
    case IfExists(id, yes, no) => IfExists(id, Flatten(yes), Flatten(no))
    case InTx(a) => Flatten(a)
    case _ => w
  }

  predicate NoTx(w: Work) {
    match w
    case Then(a, b) => NoTx(a) && NoTx(b)
    case Recover(a, h) => NoTx(a) && NoTx(h)
    case IfExists(_, yes, no) => NoTx(yes) && NoTx(no)
    case InTx(_) => false
    case _ => true
  }

  /** Joined transactions add nothing: neither an early commit nor an early rollback. */
  lemma {:induction false} NestingIsFlat(w: Work, t: Tables)
    ensures NoTx(Flatten(w)) && Effect(Flatten(w), t) == Effect(w, t)
    decreases w
  {
    match w
    case Then(a, b) =>
      NestingIsFlat(a, t);
      NestingIsFlat(b, Effect(a, t).0);
    case Recover(a, h) =>
      NestingIsFlat(a, t);
      NestingIsFlat(h, Effect(a, t).0);
    case IfExists(_, yes, no) =>
      NestingIsFlat(yes, t);
      NestingIsFlat(no, t);
    case InTx(a) =>
      NestingIsFlat(a, t);
    case _ =>
  }
}
