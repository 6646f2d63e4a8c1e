/** The upload token protocol of internal/upload/service.go. */
module Uploads {
  import opened Paths
  import opened Inodes
  import opened Graph
  import opened Walk
  import opened NodeOps
  import opened Vfs
  import opened Transactions
  import opened Registry
  import Resolvers
  import Runs

  // ---------------------------------------------------------------- object keys

  /** path.Join("drives", driveID, "uploads", uploadID) */
  function UploadKey(driveID: DriveId, uploadID: string): string {
    Clean("drives" + (if driveID == "" then "" else "/" + driveID) + "/uploads"
          + (if uploadID == "" then "" else "/" + uploadID))
  }

  lemma CleanKeepsLast(s: string, l: string)
    requires s != "" && s[0] != '/' && IsName(l)
    ensures var parts := Split(Clean(s + "/" + l)); parts[|parts| - 1] == l
  {
    SplitConcat(s, l);
    SplitAtom(l);
    ReduceConcat(false, [], Split(s), [l]);
    var stack := Reduce(false, [], Split(s));
    assert [l][1..] == [] && Reduce(false, [], Split(s + "/" + l)) == stack + [l];
    ReduceRelative([], [], Split(s + "/" + l));
    assert forall p | p in stack + [l] :: '/' !in p;
    SplitJoin(stack + [l]);
    if stack != [] { JoinSnoc(stack, l); } else { assert stack + [l] == [l]; }
    assert "" + Join(stack + [l]) == Join(stack + [l]);
  }

  /** The upload's id is the last component of its key, whatever the drive is called. */
  lemma KeyEndsInID(driveID: DriveId, uploadID: string)
    requires IsName(uploadID)
    ensures var parts := Split(UploadKey(driveID, uploadID)); parts[|parts| - 1] == uploadID
  {
    var s := "drives" + (if driveID == "" then "" else "/" + driveID) + "/uploads";
    assert s[0] == 'd' && s + "/" + uploadID == s + ("/" + uploadID);
    CleanKeepsLast(s, uploadID);
  }

  lemma JoinFour(a: string, b: string, c: string, d: string)
    ensures Join([a, b, c, d]) == a + ("/" + b) + ("/" + c) + ("/" + d)
  {
    assert [a, b, c, d][1..] == [b, c, d] && [b, c, d][1..] == [c, d] && [c, d][1..] == [d];
    assert Join([c, d]) == c + "/" + d;
    assert Join([b, c, d]) == b + "/" + (c + "/" + d);
    assert Join([a, b, c, d]) == a + "/" + (b + "/" + (c + "/" + d));
  }

  /** The key of an upload to a drive with a proper name: its four components. */
  lemma KeyParts(driveID: DriveId, uploadID: string)
    requires IsName(driveID) && IsName(uploadID)
    ensures Split(UploadKey(driveID, uploadID)) == ["drives", driveID, "uploads", uploadID]
  {
    var top, next := "drives", "uploads";
    JoinFour(top, driveID, next, uploadID);
    assert top + ("/" + driveID) + "/uploads" == top + ("/" + driveID) + ("/" + next);
    CleanNames(top + ("/" + driveID) + ("/" + next) + ("/" + uploadID), [top, driveID, next, uploadID]);
  }

  lemma CleanNames(s: string, parts: seq<string>)
    requires s != "" && s[0] != '/' && s == Join(parts) && parts != [] && Names(parts)
    ensures Split(Clean(s)) == parts
  {
    assert forall p | p in parts :: '/' !in p;
    SplitJoin(parts);
    ReduceNames(false, [], parts);
    assert [] + parts == parts && "" + s == s;
  }

  /** Distinct uploads have distinct keys. */
  lemma KeysDistinct(driveA: DriveId, a: string, driveB: DriveId, b: string)
    requires IsName(a) && IsName(b)
    ensures UploadKey(driveA, a) == UploadKey(driveB, b) ==> a == b
  {
    KeyEndsInID(driveA, a);
    KeyEndsInID(driveB, b);
  }

  // ---------------------------------------------------------------- the commit

  /** Where a completion links its object. */
  function Target(fs: FS, roots: map<DriveId, Id>, drive: DriveId, path: string): Result<(Id, string)> {
    if drive !in roots then Err(NotFound) else ResolveParent(fs, roots[drive], path)
  }

  lemma GrowsWithin(fs: FS, roots: map<DriveId, Id>, p: Id, name: string, id: Id, n: Inode)
    requires p in fs && fs[p].IsDir() && id !in fs && Find(fs[p].content.entries, name).None?
    ensures Within(fs, AddLink(fs, p, name, id, n))
  {
    var es, e := fs[p].content.entries, Entry(id, name, n.Kind());
    forall m ensures Find(es, m).Some? ==> Find(es + [e], m) == Find(es, m) { FindAppend(es, e, m); }
  }

  /** After one completion has been committed, another one of the same path finds the name
      taken. */
  lemma NameIsTaken(fs: FS, gs: FS, roots: map<DriveId, Id>, drive: DriveId, path: string, id: Id, n: Inode)
    requires Created(fs, gs, Target(fs, roots, drive, path), id, n, true, true) && id !in fs
    ensures Target(gs, roots, drive, path) == Target(fs, roots, drive, path)
    ensures var at := Target(gs, roots, drive, path).value; Child(gs, at.0, at.1).Some?
  {
    var at := Target(fs, roots, drive, path).value;
    GrowsWithin(fs, roots, at.0, at.1, id, n);
    ResolveWithin(fs, gs, roots[drive], path, true);
    FindAppend(fs[at.0].content.entries, Entry(id, at.1, n.Kind()), at.1);
  }

  /** What a completion asks of its token and of the object store. */
  predicate Checked(items: map<string, Item>, objects: set<Ref>, userID: string, driveID: DriveId, uploadID: string,
                    contentLength: int, now: Time) {
    uploadID in items && now <= items[uploadID].exp
    && var m := items[uploadID].meta;
       m.userID == userID && m.driveID == driveID && (m.size.Some? ==> m.size.value == contentLength)
       && Ref(m.bucket, m.key) in objects
  }

  /** What its transaction asks of the tree. */
  predicate Committable(fs: FS, roots: map<DriveId, Id>, meta: PresignMeta, drive: DriveId, contentLength: int) {
    meta.bucket != "" && meta.key != "" && contentLength >= 0 && Free(fs, Target(fs, roots, drive, meta.path))
  }

  ghost predicate Committed(fs: FS, gs: FS, roots: map<DriveId, Id>, meta: PresignMeta, drive: DriveId, id: Id,
                            ok: bool) {
    Created(fs, gs, Target(fs, roots, drive, meta.path), id, Inode(0, Object(Ref(meta.bucket, meta.key))), ok, ok)
  }

  /** The inode is the object, at that path. */
  lemma CommittedAdds(fs: FS, gs: FS, roots: map<DriveId, Id>, meta: PresignMeta, drive: DriveId, id: Id)
    requires Committed(fs, gs, roots, meta, drive, id, true) && id !in fs
    ensures NewAt(fs, gs, roots, drive, meta.path, id, Object(Ref(meta.bucket, meta.key)), 1)
  {
    var at := Target(fs, roots, drive, meta.path).value;
    AddLinkAdds(fs, at.0, at.1, id, Inode(0, Object(Ref(meta.bucket, meta.key))));
  }

  // ---------------------------------------------------------------- tokens

  ghost predicate TokenOk(id: string, meta: PresignMeta) {
    meta.uploadID == id && IsName(id) && meta.key == UploadKey(meta.driveID, id) && meta.bucket != ""
  }

  ghost predicate AllIssued(items: map<string, Item>, issued: map<string, PresignMeta>) {
    (forall id | id in items :: id in issued && items[id].meta == issued[id])
    && forall id | id in issued :: TokenOk(id, issued[id])
  }

  function NewToken(buckets: map<DriveId, string>, userID: string, driveID: DriveId, destPath: string,
                    size: Option<int>, expiry: Time, uploadID: string, started: Time): PresignMeta
    requires driveID in buckets
  {
    PresignMeta(uploadID, driveID, userID, destPath, buckets[driveID], UploadKey(driveID, uploadID), size,
                started + expiry)
  }

  /** The registry after an initiation: the new token is live, unless it was never stored
      or has been taken back. */
  ghost predicate Started(before: map<string, Item>, after: map<string, Item>,
                          issued: map<string, PresignMeta>, issued': map<string, PresignMeta>,
                          buckets: map<DriveId, string>,
                          userID: string, driveID: DriveId, destPath: string, size: Option<int>, expiry: Time,
                          uploadID: string, started: Time, stored: Time, putFails: bool, withdrawn: bool) {
    if driveID !in buckets || buckets[driveID] == "" || putFails then after == before && issued' == issued
    else
      var meta := NewToken(buckets, userID, driveID, destPath, size, expiry, uploadID, started);
      issued' == issued[uploadID := meta]
      && after == if withdrawn then before else before[uploadID := Item(meta, stored + expiry)]
  }

  ghost function Made(made: map<string, seq<Id>>, uploadID: string): seq<Id> {
    if uploadID in made then made[uploadID] else []
  }

  lemma IssuedKeeps(items: map<string, Item>, issued: map<string, PresignMeta>, meta: PresignMeta, exp: Time,
                    after: map<string, Item>, issued': map<string, PresignMeta>)
    requires AllIssued(items, issued) && meta.uploadID !in issued && TokenOk(meta.uploadID, meta)
    requires issued' == issued[meta.uploadID := meta]
    requires after == items || after == items[meta.uploadID := Item(meta, exp)]
    ensures meta.uploadID !in items && AllIssued(after, issued')
  {
  }

  lemma NewTokenOk(buckets: map<DriveId, string>, userID: string, driveID: DriveId, destPath: string,
                   size: Option<int>, expiry: Time, uploadID: string, started: Time)
    requires driveID in buckets && buckets[driveID] != "" && IsName(uploadID)
    ensures TokenOk(uploadID, NewToken(buckets, userID, driveID, destPath, size, expiry, uploadID, started))
  {
  }

  lemma StartedKeeps(before: map<string, Item>, after: map<string, Item>,
                     issued: map<string, PresignMeta>, issued': map<string, PresignMeta>, buckets: map<DriveId, string>,
                     userID: string, driveID: DriveId, destPath: string, size: Option<int>, expiry: Time,
                     uploadID: string, started: Time, stored: Time, putFails: bool, withdrawn: bool)
    requires AllIssued(before, issued) && uploadID !in issued && IsName(uploadID)
    requires Started(before, after, issued, issued', buckets, userID, driveID, destPath, size, expiry, uploadID,
                     started, stored, putFails, withdrawn)
    ensures AllIssued(after, issued')
  {
    if driveID in buckets && buckets[driveID] != "" && !putFails {
      var meta := NewToken(buckets, userID, driveID, destPath, size, expiry, uploadID, started);
      NewTokenOk(buckets, userID, driveID, destPath, size, expiry, uploadID, started);
      IssuedKeeps(before, issued, meta, stored + expiry, after, issued');
    }
  }

  // ---------------------------------------------------------------- the service

  class UploadService {
    const vfs: Service
    const registry: MemoryRegistry
    const buckets: map<DriveId, string>
    /** The object store. */
    var objects: set<Ref>
    /** Every token ever issued. */
    ghost var issued: map<string, PresignMeta>

    ghost predicate Tokens()
      reads this, registry
    {
      registry.Valid() && AllIssued(registry.items, issued)
    }

    constructor (vfs: Service, registry: MemoryRegistry, buckets: map<DriveId, string>)
      requires registry.Valid() && registry.items == map[]
      ensures Tokens() && this.vfs == vfs && this.registry == registry
    {
      this.vfs, this.registry, this.buckets := vfs, registry, buckets;
      objects, issued := {}, map[];
    }

    /** uploadID is a new UUID; the token is stored before the URL is signed, and taken back
        if it cannot be. A withdrawal that fails goes unnoticed: the token lives on without
        a URL. */
    method InitiateUpload(userID: string, driveID: DriveId, destPath: string, size: Option<int>, expiry: Time,
                          uploadID: string, started: Time, stored: Time,
                          putFails: bool, presignFails: bool, withdrawFails: bool) returns (r: Result<PresignMeta>)
      requires Tokens() && uploadID !in issued && IsName(uploadID)
      modifies this`issued, registry
      ensures Tokens()
      ensures r.Ok? <==> driveID in buckets && buckets[driveID] != "" && !putFails && !presignFails
      ensures r.Ok? ==> r.value == NewToken(buckets, userID, driveID, destPath, size, expiry, uploadID, started)
      ensures Started(old(registry.items), registry.items, old(issued), issued, buckets,
                      userID, driveID, destPath, size, expiry, uploadID, started, stored,
                      putFails, presignFails && !withdrawFails)
      ensures r.Ok? ==> registry.items == old(registry.items)[uploadID := Item(r.value, stored + expiry)]
      ensures r.Err? && !withdrawFails ==> registry.items == old(registry.items)
    {
      if driveID !in buckets { return Err(NotFound); }
      var bucket := buckets[driveID];
      if bucket == "" { return Err(NoBucket); }
      var key := UploadKey(driveID, uploadID);
      var meta := PresignMeta(uploadID, driveID, userID, destPath, bucket, key, size, started + expiry);
      if putFails { return Err(RegistryFailed); }
      StoreToken(meta, expiry, stored);
      if presignFails {
        if !withdrawFails { Withdraw(meta, Item(meta, stored + expiry), old(registry.items)); }
        return Err(PresignFailed);
      }
      return Ok(meta);
    }

    /** Only then is a presigned URL asked for. */
    method StoreToken(meta: PresignMeta, expiry: Time, stored: Time)
      requires Tokens() && meta.uploadID !in issued && TokenOk(meta.uploadID, meta)
      modifies this`issued, registry
      ensures Tokens() && meta.uploadID !in old(registry.items)
      ensures registry.items == old(registry.items)[meta.uploadID := Item(meta, stored + expiry)]
      ensures issued == old(issued)[meta.uploadID := meta]
    {
      IssuedKeeps(registry.items, issued, meta, stored + expiry,
                  registry.items[meta.uploadID := Item(meta, stored + expiry)], issued[meta.uploadID := meta]);
      issued := issued[meta.uploadID := meta];
      registry.Put(meta, expiry, stored);
    }

    /** Takes back a token whose URL could not be signed. */
    method Withdraw(meta: PresignMeta, item: Item, ghost before: map<string, Item>)
      requires Tokens() && meta.uploadID !in before && registry.items == before[meta.uploadID := item]
      modifies registry
      ensures Tokens() && registry.items == before
    {
      assert registry.items - {meta.uploadID} == before;
      registry.Delete(meta.uploadID);
    }

    method ClientPut(obj: Ref)
      modifies this`objects
      ensures objects == old(objects) + {obj}
    {
      objects := objects + {obj};
    }

    /** The checks a completion makes before its transaction. */
    method CheckUpload(userID: string, driveID: DriveId, uploadID: string, contentLength: int, now: Time,
                       storeFails: bool)
        returns (r: Result<PresignMeta>)
      requires registry.Valid()
      ensures r.Ok? <==> Checked(registry.items, objects, userID, driveID, uploadID, contentLength, now) && !storeFails
      ensures r.Ok? ==> r.value == registry.items[uploadID].meta
    {
      var meta := registry.Get(uploadID, now);
      if meta.None? { return Err(TokenNotFound); }
      var m := meta.value;
      if m.userID != userID { return Err(WrongUser); }
      if m.driveID != driveID { return Err(WrongDrive); }
      if m.size.Some? && m.size.value != contentLength { return Err(SizeMismatch); }
      if storeFails { return Err(NotUploaded); }
      if Ref(m.bucket, m.key) !in objects { return Err(NotUploaded); }
      return Ok(m);
    }

    /** The transaction of a completion. */
    method CommitUpload(meta: PresignMeta, driveID: DriveId, contentLength: int, id: Id, f: Faults)
        returns (r: Result<Id>)
      requires vfs.Valid() && id !in vfs.nodes.db.fs
      modifies vfs.nodes.db, vfs`owner
      ensures vfs.Valid() && vfs.Quiet() && Keeps(old(vfs.nodes.db.fs), vfs.nodes.db.fs, vfs.roots)
      ensures r.Ok? <==>
                Committable(old(vfs.nodes.db.fs), vfs.roots, meta, driveID, contentLength) && old(vfs.nodes.db.Lasts(f))
      ensures r.Ok? ==>
                r.value == id && Committed(old(vfs.nodes.db.fs), vfs.nodes.db.fs, vfs.roots, meta, driveID, id, true)
      ensures r.Ok? ==> NewAt(old(vfs.nodes.db.fs), vfs.nodes.db.fs, vfs.roots, driveID, meta.path, id,
                              Object(Ref(meta.bucket, meta.key)), 1)
      ensures r.Err? ==> vfs.nodes.db.fs == old(vfs.nodes.db.fs)
    {
      ghost var fs := vfs.nodes.db.fs;
      var joined := vfs.nodes.db.Begin(f);
      if joined.Err? { return Err(joined.error); }
      var made := CommitRows(meta, driveID, contentLength, id, f);
      var ended := vfs.nodes.db.End(joined.value, made, f);
      if ended.Err? { return Err(ended.error); }
      CommittedAdds(fs, vfs.nodes.db.fs, vfs.roots, meta, driveID, id);
      var at := Target(fs, vfs.roots, driveID, meta.path).value;
      vfs.owner := LinkKeeps(fs, vfs.roots, vfs.owner, at.0, at.1, id, Inode(0, Object(Ref(meta.bucket, meta.key))));
      return Ok(id);
    }

    /** Its callback: the object's inode is saved without a link, then linked, in a
        transaction that joins; a failed link deletes it again. */
    method CommitRows(meta: PresignMeta, driveID: DriveId, contentLength: int, id: Id, f: Faults)
        returns (r: Result<()>)
      requires vfs.nodes.db.Valid() && vfs.nodes.db.open && id !in vfs.nodes.db.fs
      modifies vfs.nodes.db
      ensures vfs.Quiet()
      ensures r.Ok? <==> Committable(old(vfs.nodes.db.fs), vfs.roots, meta, driveID, contentLength)
      ensures r.Ok? ==> Committed(old(vfs.nodes.db.fs), vfs.nodes.db.fs, vfs.roots, meta, driveID, id, true)
                        && IsName(Target(old(vfs.nodes.db.fs), vfs.roots, driveID, meta.path).value.1)
      ensures r.Err? ==> vfs.nodes.db.fs == old(vfs.nodes.db.fs)
    {
      ghost var fs := vfs.nodes.db.fs;
      var at := ResolveParentNodeID(driveID, meta.path);
      if at.Err? { return Err(at.error); }
      var (parentID, name) := at.value;
      var parent := vfs.nodes.GetByID(parentID);
      if parent.Err? { return Err(NotFound); }
      if meta.bucket == "" || meta.key == "" || contentLength < 0 { return Err(InvalidReference); }
      var created := new Handle(id, Inode(0, Object(Ref(meta.bucket, meta.key))));
      vfs.nodes.Save(created);
      r := vfs.nodes.Link(parent.value, name, created, f);
      if r.Err? {
        var _ := vfs.nodes.Delete(id);
        return;
      }
      SavedFirst(fs, parentID, name, id, Inode(0, Object(Ref(meta.bucket, meta.key))));
    }

    method ResolveParentNodeID(driveID: DriveId, path: string) returns (r: Result<(Id, string)>)
      ensures r == Target(vfs.nodes.db.fs, vfs.roots, driveID, path)
      ensures r.Ok? ==> r.value.0 in vfs.nodes.db.fs && IsName(r.value.1)
    {
      var rootID := vfs.GetRootNodeID(driveID);
      if rootID.Err? { return Err(rootID.error); }
      var resolver := new Resolvers.Resolver(vfs.nodes);
      var at := resolver.ResolveParent(rootID.value, path);
      if at.Err? { return Err(at.error); }
      ParentName(vfs.nodes.db.fs, rootID.value, path);
      return Ok((at.value.0.id, at.value.1));
    }

    /** The end of a completion that has committed: its token is deleted. */
    method DeleteToken(uploadID: string, deleteFails: bool) returns (err: Option<Error>)
      requires Tokens()
      modifies registry
      ensures Tokens() && (err.Some? <==> deleteFails)
      ensures registry.items == if deleteFails then old(registry.items) else old(registry.items) - {uploadID}
    {
      if deleteFails { return Some(CleanupFailed); }
      registry.Delete(uploadID);
      return None;
    }

    /** An error with no inode leaves tree and token as they were; an inode means the tree
        has exactly the new entry, and the token is gone unless its deletion failed. */
    method CompleteUpload(userID: string, driveID: DriveId, uploadID: string, contentLength: int, now: Time, id: Id,
                          storeFails: bool, f: Faults, deleteFails: bool) returns (n: Option<Id>, err: Option<Error>)
      requires vfs.Valid() && Tokens() && id !in vfs.nodes.db.fs
      modifies registry, vfs.nodes.db, vfs`owner
      ensures vfs.Valid() && vfs.Quiet() && Tokens()
      ensures n.Some? <==>
                Checked(old(registry.items), objects, userID, driveID, uploadID, contentLength, now) && !storeFails
                && old(vfs.nodes.db.Lasts(f))
                && Committable(old(vfs.nodes.db.fs), vfs.roots, old(registry.items)[uploadID].meta, driveID,
                               contentLength)
      ensures n.None? ==> err.Some? && vfs.nodes.db.fs == old(vfs.nodes.db.fs) && registry.items == old(registry.items)
      ensures n.Some? ==>
                n.value == id && uploadID in old(registry.items)
                && Committed(old(vfs.nodes.db.fs), vfs.nodes.db.fs, vfs.roots, old(registry.items)[uploadID].meta,
                             driveID, id, true)
                && (err.Some? <==> deleteFails)
                && registry.items == if deleteFails then old(registry.items) else old(registry.items) - {uploadID}
    {
      var checked := CheckUpload(userID, driveID, uploadID, contentLength, now, storeFails);
      if checked.Err? { return None, Some(checked.error); }
      n, err := FinishUpload(checked.value, driveID, uploadID, contentLength, id, f, deleteFails);
    }

    /** A completion after its checks: the transaction, and then the deletion. */
    method FinishUpload(meta: PresignMeta, driveID: DriveId, uploadID: string, contentLength: int, id: Id, f: Faults,
                        deleteFails: bool)
        returns (n: Option<Id>, err: Option<Error>)
      requires vfs.Valid() && Tokens() && id !in vfs.nodes.db.fs
      modifies registry, vfs.nodes.db, vfs`owner
      ensures vfs.Valid() && vfs.Quiet() && Tokens()
      ensures n.Some? <==>
                Committable(old(vfs.nodes.db.fs), vfs.roots, meta, driveID, contentLength) && old(vfs.nodes.db.Lasts(f))
      ensures n.None? ==> err.Some? && vfs.nodes.db.fs == old(vfs.nodes.db.fs) && registry.items == old(registry.items)
      ensures n.Some? ==>
                n.value == id && Committed(old(vfs.nodes.db.fs), vfs.nodes.db.fs, vfs.roots, meta, driveID, id, true)
                && (err.Some? <==> deleteFails)
                && registry.items == if deleteFails then old(registry.items) else old(registry.items) - {uploadID}
    {
      var created := CommitUpload(meta, driveID, contentLength, id, f);
      if created.Err? { return None, Some(created.error); }
      err := DeleteToken(uploadID, deleteFails);
      return Some(id), err;
    }
  }

  lemma SavedFirst(fs: FS, p: Id, name: string, id: Id, n: Inode)
    requires p in fs && fs[p].IsDir() && id !in fs
    ensures AddLink(fs[id := n], p, name, id, n) == AddLink(fs, p, name, id, n)
  {
  }

  // ---------------------------------------------------------------- runs

  /** A completion between its checks and its transaction, or between that and the deletion
      of its token. */
  datatype Pending =
    | Passed(uploadID: string, meta: PresignMeta, driveID: DriveId, contentLength: int)
    | Linked(uploadID: string)

  /** The steps of any number of requests at once; c names a completion under way. */
  datatype Step =
    | Initiate(userID: string, driveID: DriveId, path: string, size: Option<int>, expiry: Time, uploadID: string,
               started: Time, stored: Time, putFails: bool, presignFails: bool, withdrawFails: bool)
    | ClientPut(obj: Ref)
    | Check(c: nat, userID: string, driveID: DriveId, uploadID: string, contentLength: int, now: Time, storeFails: bool)
    | Commit(c: nat, faults: Faults)
    | Delete(c: nat, fails: bool)
    | Expire(uploadID: string)
    | Other(call: Runs.Call)

  /** Everything a step can change. */
  datatype World = World(fs: FS, objects: set<Ref>, items: map<string, Item>, issued: map<string, PresignMeta>,
                         made: map<string, seq<Id>>, pending: map<nat, Pending>)

  /** made records the inodes of each token. */
  ghost function WorldOf(u: UploadService, made: map<string, seq<Id>>, pending: map<nat, Pending>): World
    reads u, u.vfs.nodes.db, u.registry
  {
    World(u.vfs.nodes.db.committed.fs, u.objects, u.registry.items, u.issued, made, pending)
  }

  /** The step is a completion's check, and it passes. */
  predicate Passes(w: World, step: Step) {
    step.Check? && step.c !in w.pending && !step.storeFails
    && Checked(w.items, w.objects, step.userID, step.driveID, step.uploadID, step.contentLength, step.now)
  }

  function AfterCheck(w: World, step: Step): World
    requires Passes(w, step)
  {
    w.(pending := w.pending[step.c := Passed(step.uploadID, w.items[step.uploadID].meta, step.driveID,
                                             step.contentLength)])
  }

  /** The step is a completion's transaction, and it goes through. */
  predicate Goes(w: World, roots: map<DriveId, Id>, step: Step, id: string) {
    step.Commit? && step.c in w.pending && w.pending[step.c].Passed? && w.pending[step.c].uploadID == id
    && Committable(w.fs, roots, w.pending[step.c].meta, w.pending[step.c].driveID, w.pending[step.c].contentLength)
    && step.faults.Calm()
  }

  /** What one step does; a is the id of a new inode. Other requests may do anything to the
      tree. */
  ghost predicate Advances(w: World, v: World, roots: map<DriveId, Id>, buckets: map<DriveId, string>, step: Step,
                           a: Id) {
    match step
    case Initiate(user, drive, path, size, expiry, id, started, stored, putFails, presignFails, withdrawFails) =>
      id !in w.issued && IsName(id) && v == w.(items := v.items, issued := v.issued)
      && Started(w.items, v.items, w.issued, v.issued, buckets, user, drive, path, size, expiry, id, started, stored,
                 putFails, presignFails && !withdrawFails)
    case ClientPut(obj) => v == w.(objects := w.objects + {obj})
    case Check(c, user, drive, id, length, now, storeFails) =>
      v == if Passes(w, step) then AfterCheck(w, step) else w
    case Commit(c, f) => CommitAdvances(w, v, roots, step, a)
    case Delete(c, fails) =>
      v == if c in w.pending && w.pending[c].Linked?
           then w.(pending := w.pending - {c}, items := if fails then w.items else w.items - {w.pending[c].uploadID})
           else w
    case Expire(id) => v == w.(items := w.items - {id})
    case Other(_) => v == w.(fs := v.fs)
  }

  ghost predicate CommitAdvances(w: World, v: World, roots: map<DriveId, Id>, step: Step, a: Id)
    requires step.Commit?
  {
    var c := step.c;
    if c !in w.pending || w.pending[c].Linked? then v == w
    else
      var p := w.pending[c];
      if Goes(w, roots, step, p.uploadID) then
        a !in w.fs && Committed(w.fs, v.fs, roots, p.meta, p.driveID, a, true)
        && v == w.(fs := v.fs, made := w.made[p.uploadID := Made(w.made, p.uploadID) + [a]],
                   pending := w.pending[c := Linked(p.uploadID)])
      else v == w.(pending := w.pending - {c})
  }

  // ---------------------------------------------------------------- what every step keeps

  /** A completion under way has seen its token, as it was issued. */
  ghost predicate PendingOk(issued: map<string, PresignMeta>, p: Pending) {
    p.uploadID in issued && (p.Passed? ==> p.meta == issued[p.uploadID] && p.driveID == p.meta.driveID)
  }

  ghost predicate Tracked(w: World) {
    AllIssued(w.items, w.issued) && w.made.Keys <= w.issued.Keys
    && forall c | c in w.pending :: PendingOk(w.issued, w.pending[c])
  }

  lemma IssuedStays(w: World, v: World, roots: map<DriveId, Id>, buckets: map<DriveId, string>, step: Step, a: Id)
    requires Advances(w, v, roots, buckets, step, a)
    ensures forall id | id in w.issued :: id in v.issued && v.issued[id] == w.issued[id]
    ensures v.issued.Keys <= w.issued.Keys + (if step.Initiate? then {step.uploadID} else {})
  {
  }

  /** The bookkeeping of tokens survives every step. */
  lemma AdvanceKeeps(w: World, v: World, roots: map<DriveId, Id>, buckets: map<DriveId, string>, step: Step, a: Id)
    requires Tracked(w) && Advances(w, v, roots, buckets, step, a)
    ensures Tracked(v)
  {
    if step.Initiate? {
      StartedKeeps(w.items, v.items, w.issued, v.issued, buckets, step.userID, step.driveID, step.path, step.size,
                   step.expiry, step.uploadID, step.started, step.stored, step.putFails,
                   step.presignFails && !step.withdrawFails);
      IssuedStays(w, v, roots, buckets, step, a);
      MoreIssued(w, v);
    } else if step.Commit? {
      CommitKeeps(w, v, roots, step, a);
    } else if step.Check? && Passes(w, step) {
      CheckKeeps(w, step);
    }
  }

  lemma MoreIssued(w: World, v: World)
    requires Tracked(w) && v == w.(items := v.items, issued := v.issued) && AllIssued(v.items, v.issued)
    requires forall id | id in w.issued :: id in v.issued && v.issued[id] == w.issued[id]
    ensures Tracked(v)
  {
  }

  lemma CheckKeeps(w: World, step: Step)
    requires Tracked(w) && Passes(w, step)
    ensures Tracked(AfterCheck(w, step))
  {
  }

  lemma CommitKeeps(w: World, v: World, roots: map<DriveId, Id>, step: Step, a: Id)
    requires Tracked(w) && step.Commit? && CommitAdvances(w, v, roots, step, a)
    ensures Tracked(v)
  {
    var c := step.c;
    if c in w.pending && w.pending[c].Passed? {
      var id := w.pending[c].uploadID;
      if Goes(w, roots, step, id) { LinkedKeeps(w, v.fs, c, id, a); } else { DroppedKeeps(w, c); }
    }
  }

  lemma LinkedKeeps(w: World, fs: FS, c: nat, id: string, a: Id)
    requires Tracked(w) && c in w.pending && w.pending[c].uploadID == id
    ensures Tracked(w.(fs := fs, made := w.made[id := Made(w.made, id) + [a]], pending := w.pending[c := Linked(id)]))
  {
    assert PendingOk(w.issued, w.pending[c]);
  }

  lemma DroppedKeeps(w: World, c: nat)
    requires Tracked(w)
    ensures Tracked(w.(pending := w.pending - {c}))
  {
  }

  /** A token that is gone stays gone. */
  ghost predicate Gone(w: World, id: string) { id in w.issued && id !in w.items }

  lemma GoneStays(w: World, v: World, roots: map<DriveId, Id>, buckets: map<DriveId, string>, step: Step, a: Id,
                   id: string)
    requires Advances(w, v, roots, buckets, step, a) && Gone(w, id)
    ensures Gone(v, id)
  {
  }

  /** There is an entry at the path the token was issued for. */
  ghost predicate Taken(w: World, roots: map<DriveId, Id>, id: string) {
    id in w.issued
    && var at := Target(w.fs, roots, w.issued[id].driveID, w.issued[id].path);
       at.Ok? && Child(w.fs, at.value.0, at.value.1).Some?
  }

  /** Only another request can free the name. */
  lemma TakenStays(w: World, v: World, roots: map<DriveId, Id>, buckets: map<DriveId, string>, step: Step, a: Id,
                    id: string)
    requires Advances(w, v, roots, buckets, step, a) && !step.Other? && Taken(w, roots, id)
    ensures Taken(v, roots, id)
  {
    IssuedStays(w, v, roots, buckets, step, a);
    if v.fs != w.fs {
      var p := w.pending[step.c];
      CommitKeepsTaken(w.fs, v.fs, roots, p.meta, p.driveID, a, w.issued[id].driveID, w.issued[id].path);
    }
  }

  lemma CommitKeepsTaken(fs: FS, gs: FS, roots: map<DriveId, Id>, meta: PresignMeta, drive: DriveId, a: Id,
                         d: DriveId, path: string)
    requires Committed(fs, gs, roots, meta, drive, a, true) && a !in fs
    requires Target(fs, roots, d, path).Ok?
    requires var at := Target(fs, roots, d, path).value; Child(fs, at.0, at.1).Some?
    ensures Target(gs, roots, d, path) == Target(fs, roots, d, path)
    ensures var at := Target(gs, roots, d, path).value; Child(gs, at.0, at.1).Some?
  {
    var to := Target(fs, roots, drive, meta.path).value;
    GrowsWithin(fs, roots, to.0, to.1, a, Inode(0, Object(Ref(meta.bucket, meta.key))));
    ResolveWithin(fs, gs, roots[d], path, true);
  }

  /** A token makes an inode exactly when a transaction of one of its completions goes through. */
  lemma MadeIffGoes(w: World, v: World, roots: map<DriveId, Id>, buckets: map<DriveId, string>, step: Step, a: Id,
                    id: string)
    requires Advances(w, v, roots, buckets, step, a)
    ensures Made(v.made, id) == if Goes(w, roots, step, id) then Made(w.made, id) + [a] else Made(w.made, id)
  {
    if step.Commit? { MadeByCommit(w, v, roots, step, a, id); }
  }

  lemma MadeByCommit(w: World, v: World, roots: map<DriveId, Id>, step: Step, a: Id, id: string)
    requires step.Commit? && CommitAdvances(w, v, roots, step, a)
    ensures Made(v.made, id) == if Goes(w, roots, step, id) then Made(w.made, id) + [a] else Made(w.made, id)
  {
    if step.c in w.pending && w.pending[step.c].Passed? {
      if w.pending[step.c].uploadID != id { assert !Goes(w, roots, step, id); }
    }
  }

  /** Its name was free then, and is taken afterwards. */
  lemma GoesTakes(w: World, v: World, roots: map<DriveId, Id>, step: Step, a: Id, id: string)
    requires Tracked(w) && Goes(w, roots, step, id) && CommitAdvances(w, v, roots, step, a)
    ensures !Taken(w, roots, id) && Taken(v, roots, id)
  {
    var p := w.pending[step.c];
    assert PendingOk(w.issued, p);
    NameIsTaken(w.fs, v.fs, roots, p.driveID, p.meta.path, a, Inode(0, Object(Ref(p.meta.bucket, p.meta.key))));
  }

  // ---------------------------------------------------------------- whole runs

  ghost predicate StepOk(worlds: seq<World>, ids: seq<Id>, steps: seq<Step>, roots: map<DriveId, Id>,
                         buckets: map<DriveId, string>, i: nat)
    requires i + 1 < |worlds| && i < |ids| && i < |steps|
  {
    Advances(worlds[i], worlds[i + 1], roots, buckets, steps[i], ids[i])
  }

  /** The worlds of a run of n steps. */
  ghost predicate Trace(worlds: seq<World>, ids: seq<Id>, steps: seq<Step>, roots: map<DriveId, Id>,
                        buckets: map<DriveId, string>, n: nat) {
    n <= |steps| && |worlds| == n + 1 && |ids| == n
    && forall i | 0 <= i < n :: StepOk(worlds, ids, steps, roots, buckets, i)
  }

  /** A whole run, from a service with no completion under way. */
  ghost predicate Complete(worlds: seq<World>, ids: seq<Id>, steps: seq<Step>, roots: map<DriveId, Id>,
                           buckets: map<DriveId, string>) {
    Trace(worlds, ids, steps, roots, buckets, |steps|) && Tracked(worlds[0]) && worlds[0].pending == map[]
  }

  lemma StepAt(worlds: seq<World>, ids: seq<Id>, steps: seq<Step>, roots: map<DriveId, Id>,
               buckets: map<DriveId, string>, i: nat)
    requires i < |steps| && Trace(worlds, ids, steps, roots, buckets, |steps|)
    ensures Advances(worlds[i], worlds[i + 1], roots, buckets, steps[i], ids[i])
  {
    assert StepOk(worlds, ids, steps, roots, buckets, i);
  }

  lemma {:induction false} RunKeeps(worlds: seq<World>, ids: seq<Id>, steps: seq<Step>, roots: map<DriveId, Id>,
                                    buckets: map<DriveId, string>, n: nat)
    requires n <= |steps| && Complete(worlds, ids, steps, roots, buckets)
    ensures Tracked(worlds[n])
  {
    if n > 0 {
      RunKeeps(worlds, ids, steps, roots, buckets, n - 1);
      StepAt(worlds, ids, steps, roots, buckets, n - 1);
      AdvanceKeeps(worlds[n - 1], worlds[n], roots, buckets, steps[n - 1], ids[n - 1]);
    }
  }

  lemma CountAt(worlds: seq<World>, ids: seq<Id>, steps: seq<Step>, roots: map<DriveId, Id>,
                buckets: map<DriveId, string>, i: nat, id: string)
    requires i < |steps| && Complete(worlds, ids, steps, roots, buckets)
    ensures |Made(worlds[i + 1].made, id)| ==
            |Made(worlds[i].made, id)| + if Goes(worlds[i], roots, steps[i], id) then 1 else 0
  {
    StepAt(worlds, ids, steps, roots, buckets, i);
    MadeIffGoes(worlds[i], worlds[i + 1], roots, buckets, steps[i], ids[i], id);
  }

  lemma GoesAt(worlds: seq<World>, ids: seq<Id>, steps: seq<Step>, roots: map<DriveId, Id>,
               buckets: map<DriveId, string>, i: nat, id: string)
    requires i < |steps| && Complete(worlds, ids, steps, roots, buckets) && Goes(worlds[i], roots, steps[i], id)
    ensures !Taken(worlds[i], roots, id) && Taken(worlds[i + 1], roots, id)
  {
    RunKeeps(worlds, ids, steps, roots, buckets, i);
    StepAt(worlds, ids, steps, roots, buckets, i);
    GoesTakes(worlds[i], worlds[i + 1], roots, steps[i], ids[i], id);
  }

  lemma TakenAt(worlds: seq<World>, ids: seq<Id>, steps: seq<Step>, roots: map<DriveId, Id>,
                buckets: map<DriveId, string>, i: nat, id: string)
    requires i < |steps| && Complete(worlds, ids, steps, roots, buckets) && Taken(worlds[i], roots, id)
    ensures Taken(worlds[i + 1], roots, id) || steps[i].Other?
  {
    StepAt(worlds, ids, steps, roots, buckets, i);
    if !steps[i].Other? { TakenStays(worlds[i], worlds[i + 1], roots, buckets, steps[i], ids[i], id); }
  }

  lemma GoneAt(worlds: seq<World>, ids: seq<Id>, steps: seq<Step>, roots: map<DriveId, Id>,
               buckets: map<DriveId, string>, i: nat, id: string)
    requires i < |steps| && Complete(worlds, ids, steps, roots, buckets) && Gone(worlds[i], id)
    ensures Gone(worlds[i + 1], id)
  {
    StepAt(worlds, ids, steps, roots, buckets, i);
    GoneStays(worlds[i], worlds[i + 1], roots, buckets, steps[i], ids[i], id);
  }

  lemma PendingAt(worlds: seq<World>, ids: seq<Id>, steps: seq<Step>, roots: map<DriveId, Id>,
                  buckets: map<DriveId, string>, i: nat, c: nat)
    requires i < |steps| && Complete(worlds, ids, steps, roots, buckets) && c in worlds[i + 1].pending
    ensures if c in worlds[i].pending then worlds[i].pending[c].uploadID == worlds[i + 1].pending[c].uploadID
            else CheckedAt(worlds, steps, c, worlds[i + 1].pending[c].uploadID, i)
    ensures var p := worlds[i + 1].pending[c];
            p.Passed? ==> if c in worlds[i].pending then p == worlds[i].pending[c]
                          else p.contentLength == steps[i].contentLength
  {
    StepAt(worlds, ids, steps, roots, buckets, i);
  }

  lemma {:induction false} GoneForGood(worlds: seq<World>, ids: seq<Id>, steps: seq<Step>, roots: map<DriveId, Id>,
                                       buckets: map<DriveId, string>, d: nat, n: nat, id: string)
    requires d <= n <= |steps| && Complete(worlds, ids, steps, roots, buckets) && Gone(worlds[d], id)
    ensures Gone(worlds[n], id)
  {
    if d < n {
      GoneForGood(worlds, ids, steps, roots, buckets, d, n - 1, id);
      GoneAt(worlds, ids, steps, roots, buckets, n - 1, id);
    }
  }

  /** Another request frees the name at step k. */
  ghost predicate FreedAt(worlds: seq<World>, steps: seq<Step>, roots: map<DriveId, Id>, id: string, k: nat) {
    k < |steps| && k + 1 < |worlds| && steps[k].Other?
    && Taken(worlds[k], roots, id) && !Taken(worlds[k + 1], roots, id)
  }

  /** taken says when there was an entry at the token's path: every commit of the token found
      none and left one, and only other requests freed the name. */
  ghost predicate History(worlds: seq<World>, steps: seq<Step>, roots: map<DriveId, Id>, id: string, taken: seq<bool>) {
    |taken| == |steps| + 1 == |worlds|
    && (forall k | 0 <= k < |steps| && taken[k] && !taken[k + 1] :: FreedAt(worlds, steps, roots, id, k))
    && forall k | 0 <= k < |steps| && Goes(worlds[k], roots, steps[k], id) :: !taken[k] && taken[k + 1]
  }

  lemma TakenHistory(worlds: seq<World>, ids: seq<Id>, steps: seq<Step>, roots: map<DriveId, Id>,
                     buckets: map<DriveId, string>, id: string) returns (taken: seq<bool>)
    requires Complete(worlds, ids, steps, roots, buckets)
    ensures History(worlds, steps, roots, id, taken)
  {
    taken := seq(|worlds|, i requires 0 <= i < |worlds| => Taken(worlds[i], roots, id));
    forall k | 0 <= k < |steps| && taken[k] && !taken[k + 1] ensures FreedAt(worlds, steps, roots, id, k) {
      TakenAt(worlds, ids, steps, roots, buckets, k, id);
    }
    forall k | 0 <= k < |steps| && Goes(worlds[k], roots, steps[k], id) ensures !taken[k] && taken[k + 1] {
      GoesAt(worlds, ids, steps, roots, buckets, k, id);
    }
  }

  lemma {:induction false} Falls(taken: seq<bool>, i: nat, j: nat) returns (k: nat)
    requires i <= j < |taken| && taken[i] && !taken[j]
    ensures i <= k < j && taken[k] && !taken[k + 1]
  {
    k := j - 1;
    if !taken[k] { k := Falls(taken, i, k); }
  }

  /** A completion's check at step b of the token, which was live then. */
  ghost predicate CheckedAt(worlds: seq<World>, steps: seq<Step>, c: nat, id: string, b: nat) {
    b < |steps| && b < |worlds| && Passes(worlds[b], steps[b]) && steps[b].c == c && steps[b].uploadID == id
  }

  /** A completion under way has passed its check. */
  lemma {:induction false} Began(worlds: seq<World>, ids: seq<Id>, steps: seq<Step>, roots: map<DriveId, Id>,
                                 buckets: map<DriveId, string>, n: nat, c: nat) returns (b: nat)
    requires n <= |steps| && Complete(worlds, ids, steps, roots, buckets) && c in worlds[n].pending
    ensures b < n && CheckedAt(worlds, steps, c, worlds[n].pending[c].uploadID, b)
    ensures worlds[n].pending[c].Passed? ==> worlds[n].pending[c].contentLength == steps[b].contentLength
  {
    PendingAt(worlds, ids, steps, roots, buckets, n - 1, c);
    if c in worlds[n - 1].pending {
      b := Began(worlds, ids, steps, roots, buckets, n - 1, c);
    } else {
      b := n - 1;
    }
  }

  /** Two transactions of completions of the token, at steps i and j. */
  ghost predicate GoTwice(worlds: seq<World>, steps: seq<Step>, roots: map<DriveId, Id>, id: string, i: nat, j: nat) {
    i < j < |worlds| && j < |steps| && Goes(worlds[i], roots, steps[i], id) && Goes(worlds[j], roots, steps[j], id)
  }

  /** Between two inodes of one token another request has freed the name. */
  lemma FreedBetween(worlds: seq<World>, ids: seq<Id>, steps: seq<Step>, roots: map<DriveId, Id>,
                     buckets: map<DriveId, string>, id: string, i: nat, j: nat) returns (k: nat)
    requires Complete(worlds, ids, steps, roots, buckets) && GoTwice(worlds, steps, roots, id, i, j)
    ensures i < k < j && FreedAt(worlds, steps, roots, id, k)
  {
    var taken := TakenHistory(worlds, ids, steps, roots, buckets, id);
    k := Falls(taken, i + 1, j);
  }

  /** The completion that commits at step j has passed its check at a step b, and until then
      the token was never gone. */
  lemma CheckedBefore(worlds: seq<World>, ids: seq<Id>, steps: seq<Step>, roots: map<DriveId, Id>,
                      buckets: map<DriveId, string>, id: string, j: nat) returns (b: nat)
    requires j < |steps| && Complete(worlds, ids, steps, roots, buckets) && Goes(worlds[j], roots, steps[j], id)
    ensures b < j && CheckedAt(worlds, steps, steps[j].c, id, b) && forall d | 0 <= d <= b :: !Gone(worlds[d], id)
    ensures steps[b].contentLength >= 0
  {
    b := Began(worlds, ids, steps, roots, buckets, j, steps[j].c);
    forall d | 0 <= d <= b ensures !Gone(worlds[d], id) {
      if Gone(worlds[d], id) { GoneForGood(worlds, ids, steps, roots, buckets, d, b, id); }
    }
  }

  /** When a token has made two inodes, another request has freed the name in between, and
      the completion that made the second had passed its check before the token was first
      gone. */
  lemma SecondInode(worlds: seq<World>, ids: seq<Id>, steps: seq<Step>, roots: map<DriveId, Id>,
                    buckets: map<DriveId, string>, id: string, i: nat, j: nat) returns (k: nat, b: nat)
    requires Complete(worlds, ids, steps, roots, buckets) && GoTwice(worlds, steps, roots, id, i, j)
    ensures i < k < j && FreedAt(worlds, steps, roots, id, k)
    ensures b < j && CheckedAt(worlds, steps, steps[j].c, id, b) && forall d | 0 <= d <= b :: !Gone(worlds[d], id)
  {
    k := FreedBetween(worlds, ids, steps, roots, buckets, id, i, j);
    b := CheckedBefore(worlds, ids, steps, roots, buckets, id, j);
  }

  // ---------------------------------------------------------------- who completes an upload

  lemma {:induction false} IssuedForGood(worlds: seq<World>, ids: seq<Id>, steps: seq<Step>, roots: map<DriveId, Id>,
                                         buckets: map<DriveId, string>, b: nat, n: nat, id: string)
    requires b <= n <= |steps| && Complete(worlds, ids, steps, roots, buckets) && id in worlds[b].issued
    ensures id in worlds[n].issued && worlds[n].issued[id] == worlds[b].issued[id]
  {
    if b < n {
      IssuedForGood(worlds, ids, steps, roots, buckets, b, n - 1, id);
      StepAt(worlds, ids, steps, roots, buckets, n - 1);
      IssuedStays(worlds[n - 1], worlds[n], roots, buckets, steps[n - 1], ids[n - 1]);
    }
  }

  /** The token is the one that this initiation asked for. */
  ghost predicate IssuedFor(m: PresignMeta, step: Step, buckets: map<DriveId, string>) {
    step.Initiate? && m.uploadID == step.uploadID && m.userID == step.userID && m.driveID == step.driveID
    && m.path == step.path && m.size == step.size && m.expiresAt == step.started + step.expiry
    && step.driveID in buckets && m.bucket == buckets[step.driveID]
  }

  /** A token comes from an initiation. */
  lemma {:induction false} Initiated(worlds: seq<World>, ids: seq<Id>, steps: seq<Step>, roots: map<DriveId, Id>,
                                     buckets: map<DriveId, string>, n: nat, id: string) returns (i: nat)
    requires n <= |steps| && Complete(worlds, ids, steps, roots, buckets)
    requires id in worlds[n].issued && id !in worlds[0].issued
    ensures i < n && IssuedFor(worlds[n].issued[id], steps[i], buckets)
    ensures id in worlds[n].items ==> worlds[n].items[id].exp == steps[i].stored + steps[i].expiry
  {
    i := n - 1;
    StepAt(worlds, ids, steps, roots, buckets, i);
    IssuedStays(worlds[i], worlds[n], roots, buckets, steps[i], ids[i]);
    if id in worlds[i].issued {
      ItemsStay(worlds[i], worlds[n], roots, buckets, steps[i], ids[i], id);
      i := Initiated(worlds, ids, steps, roots, buckets, i, id);
    } else {
      RunKeeps(worlds, ids, steps, roots, buckets, i);
    }
  }

  /** A live token that was issued before has not been touched. */
  lemma ItemsStay(w: World, v: World, roots: map<DriveId, Id>, buckets: map<DriveId, string>, step: Step, a: Id,
                  id: string)
    requires Advances(w, v, roots, buckets, step, a) && id in w.issued
    ensures id in v.items ==> id in w.items && w.items[id] == v.items[id]
  {
  }

  /** The check of a completion as the token asks for it: in time, by its user, for its drive and
      size, with its object put. */
  ghost predicate Rightful(w: World, step: Step, id: string, m: PresignMeta) {
    step.Check? && step.uploadID == id && id in w.items && step.now <= w.items[id].exp && !step.storeFails
    && step.userID == m.userID && step.driveID == m.driveID && (m.size.Some? ==> step.contentLength == m.size.value)
    && Ref(m.bucket, m.key) in w.objects
  }

  lemma CheckedIsRightful(w: World, steps: seq<Step>, worlds: seq<World>, c: nat, id: string, b: nat)
    requires CheckedAt(worlds, steps, c, id, b) && w == worlds[b] && Tracked(w)
    ensures id in w.issued && Rightful(w, steps[b], id, w.issued[id])
  {
  }

  lemma GoesAdds(w: World, v: World, roots: map<DriveId, Id>, step: Step, a: Id, id: string)
    requires Tracked(w) && Goes(w, roots, step, id) && CommitAdvances(w, v, roots, step, a)
    ensures id in w.issued
            && var m := w.issued[id]; NewAt(w.fs, v.fs, roots, m.driveID, m.path, a, Object(Ref(m.bucket, m.key)), 1)
  {
    var p := w.pending[step.c];
    assert PendingOk(w.issued, p);
    CommittedAdds(w.fs, v.fs, roots, p.meta, p.driveID, a);
  }

  /** Over every run: a token makes an inode only by a completion of the user, on the drive and,
      if one was given, with the length that the upload was initiated with, checked in time and
      with the object put; and what it makes is that object, at the path initiated. */
  lemma OnlyByRight(worlds: seq<World>, ids: seq<Id>, steps: seq<Step>, roots: map<DriveId, Id>,
                    buckets: map<DriveId, string>, id: string, j: nat) returns (i: nat, b: nat)
    requires j < |steps| && Complete(worlds, ids, steps, roots, buckets) && id !in worlds[0].issued
    requires Made(worlds[j + 1].made, id) != Made(worlds[j].made, id)
    ensures i < b < j && id in worlds[j].issued && IssuedFor(worlds[j].issued[id], steps[i], buckets)
    ensures steps[j].Commit? && Rightful(worlds[b], steps[b], id, worlds[j].issued[id]) && steps[b].c == steps[j].c
    ensures steps[b].now <= steps[i].stored + steps[i].expiry && steps[b].contentLength >= 0
    ensures var m := worlds[j].issued[id];
            NewAt(worlds[j].fs, worlds[j + 1].fs, roots, m.driveID, m.path, ids[j], Object(Ref(m.bucket, m.key)), 1)
  {
    StepAt(worlds, ids, steps, roots, buckets, j);
    MadeIffGoes(worlds[j], worlds[j + 1], roots, buckets, steps[j], ids[j], id);
    RunKeeps(worlds, ids, steps, roots, buckets, j);
    GoesAdds(worlds[j], worlds[j + 1], roots, steps[j], ids[j], id);
    b := CheckedBefore(worlds, ids, steps, roots, buckets, id, j);
    RunKeeps(worlds, ids, steps, roots, buckets, b);
    CheckedIsRightful(worlds[b], steps, worlds, steps[j].c, id, b);
    IssuedForGood(worlds, ids, steps, roots, buckets, b, j, id);
    i := Initiated(worlds, ids, steps, roots, buckets, b, id);
  }

  // ---------------------------------------------------------------- counting

  /** A count that each step raises by one or leaves. */
  ghost predicate Rises(count: seq<nat>, goes: seq<bool>) {
    |count| == |goes| + 1 && count[0] == 0
    && forall i | 0 <= i < |goes| :: count[i + 1] == count[i] + if goes[i] then 1 else 0
  }

  lemma {:induction false} LastRise(count: seq<nat>, goes: seq<bool>, n: nat) returns (j: nat)
    requires Rises(count, goes) && n <= |goes| && count[n] > 0
    ensures j < n && goes[j] && count[j] == count[n] - 1
  {
    j := n - 1;
    if !goes[j] { j := LastRise(count, goes, n - 1); }
  }

  lemma {:induction false} RiseStays(count: seq<nat>, goes: seq<bool>, i: nat, n: nat)
    requires Rises(count, goes) && i <= n <= |goes|
    ensures count[i] <= count[n]
  {
    if i < n { RiseStays(count, goes, i, n - 1); }
  }

  lemma TwoRises(count: seq<nat>, goes: seq<bool>) returns (i: nat, j: nat)
    requires Rises(count, goes) && count[|goes|] >= 2
    ensures i < j < |goes| && goes[i] && goes[j]
  {
    j := LastRise(count, goes, |goes|);
    i := LastRise(count, goes, j);
  }

  lemma RiseTwice(count: seq<nat>, goes: seq<bool>, i: nat, j: nat)
    requires Rises(count, goes) && i < j < |goes| && goes[i] && goes[j]
    ensures count[|goes|] >= 2
  {
    RiseStays(count, goes, i + 1, j);
    RiseStays(count, goes, j + 1, |goes|);
  }

  /** How many inodes the token has made in each world, and which steps made them. */
  ghost predicate Counts(worlds: seq<World>, steps: seq<Step>, roots: map<DriveId, Id>, id: string, count: seq<nat>,
                         goes: seq<bool>) {
    |count| == |worlds| == |steps| + 1 && |goes| == |steps|
    && (forall i | 0 <= i < |worlds| :: count[i] == |Made(worlds[i].made, id)|)
    && forall i | 0 <= i < |steps| :: goes[i] <==> Goes(worlds[i], roots, steps[i], id)
  }

  lemma MadeRises(worlds: seq<World>, ids: seq<Id>, steps: seq<Step>, roots: map<DriveId, Id>,
                  buckets: map<DriveId, string>, id: string) returns (count: seq<nat>, goes: seq<bool>)
    requires Complete(worlds, ids, steps, roots, buckets) && id !in worlds[0].made
    ensures Counts(worlds, steps, roots, id, count, goes) && Rises(count, goes)
  {
    count := seq(|worlds|, i requires 0 <= i < |worlds| => |Made(worlds[i].made, id)|);
    goes := seq(|steps|, i requires 0 <= i < |steps| => Goes(worlds[i], roots, steps[i], id));
    forall i | 0 <= i < |steps| ensures count[i + 1] == count[i] + if goes[i] then 1 else 0 {
      CountAt(worlds, ids, steps, roots, buckets, i, id);
    }
  }

  lemma TwoMade(worlds: seq<World>, ids: seq<Id>, steps: seq<Step>, roots: map<DriveId, Id>,
                buckets: map<DriveId, string>, id: string) returns (i: nat, j: nat)
    requires Complete(worlds, ids, steps, roots, buckets) && id !in worlds[0].made
    requires |Made(worlds[|steps|].made, id)| >= 2
    ensures GoTwice(worlds, steps, roots, id, i, j)
  {
    var count, goes := MadeRises(worlds, ids, steps, roots, buckets, id);
    i, j := TwoRises(count, goes);
  }

  lemma TwiceMade(worlds: seq<World>, ids: seq<Id>, steps: seq<Step>, roots: map<DriveId, Id>,
                  buckets: map<DriveId, string>, id: string, i: nat, j: nat)
    requires Complete(worlds, ids, steps, roots, buckets) && id !in worlds[0].made
    requires GoTwice(worlds, steps, roots, id, i, j)
    ensures |Made(worlds[|steps|].made, id)| >= 2
  {
    var count, goes := MadeRises(worlds, ids, steps, roots, buckets, id);
    RiseTwice(count, goes, i, j);
  }

  /** A new token comes to a second inode exactly when two transactions of its completions
      go through. */
  lemma SecondIffTwice(worlds: seq<World>, ids: seq<Id>, steps: seq<Step>, roots: map<DriveId, Id>,
                       buckets: map<DriveId, string>, id: string)
    requires Complete(worlds, ids, steps, roots, buckets) && id !in worlds[0].made
    ensures |Made(worlds[|steps|].made, id)| >= 2 <==> exists i, j :: GoTwice(worlds, steps, roots, id, i, j)
  {
    if |Made(worlds[|steps|].made, id)| >= 2 {
      var i, j := TwoMade(worlds, ids, steps, roots, buckets, id);
    }
    forall i: nat, j: nat | GoTwice(worlds, steps, roots, id, i, j) ensures |Made(worlds[|steps|].made, id)| >= 2 {
      TwiceMade(worlds, ids, steps, roots, buckets, id, i, j);
    }
  }

  /** So completions alone never make a second inode, however they overlap and whatever
      fails. */
  lemma OneInodeUndisturbed(worlds: seq<World>, ids: seq<Id>, steps: seq<Step>, roots: map<DriveId, Id>,
                            buckets: map<DriveId, string>, id: string)
    requires Complete(worlds, ids, steps, roots, buckets) && id !in worlds[0].made
    requires forall t | t in steps :: !t.Other?
    ensures |Made(worlds[|steps|].made, id)| <= 1
  {
    if |Made(worlds[|steps|].made, id)| >= 2 {
      var i, j := TwoMade(worlds, ids, steps, roots, buckets, id);
      var k := FreedBetween(worlds, ids, steps, roots, buckets, id, i, j);
    }
  }

  // ---------------------------------------------------------------- completions one after the other

  /** No completion of a token is checked while another one of it is under way, and no
      deletion fails. */
  ghost predicate Orderly(w: World, step: Step) {
    (step.Check? ==> forall c | c in w.pending :: w.pending[c].uploadID != step.uploadID)
    && (step.Delete? ==> !step.fails)
  }

  predicate UnderWay(w: World, c: nat, id: string) { c in w.pending && w.pending[c].uploadID == id }

  /** A token that has made an inode is gone, or about to be deleted by the only completion
      of it under way. */
  ghost predicate Single(w: World, id: string) {
    |Made(w.made, id)| <= 1
    && (forall c, d | UnderWay(w, c, id) && UnderWay(w, d, id) :: c == d)
    && (Made(w.made, id) != [] ==>
          (forall c | UnderWay(w, c, id) :: w.pending[c].Linked?)
          && (id in w.items ==> exists c :: UnderWay(w, c, id)))
  }

  lemma SingleKeeps(w: World, v: World, roots: map<DriveId, Id>, buckets: map<DriveId, string>, step: Step, a: Id,
                     id: string)
    requires Tracked(w) && Single(w, id) && Orderly(w, step) && Advances(w, v, roots, buckets, step, a)
    ensures Single(v, id)
  {
    if step.Commit? {
      SingleCommit(w, v, roots, step, a, id);
    } else if step.Check? {
      SingleCheck(w, v, step, id);
    } else if step.Delete? {
      SingleDelete(w, v, step, id);
    } else {
      SingleElse(w, v, id);
    }
  }

  lemma SingleElse(w: World, v: World, id: string)
    requires Tracked(w) && Single(w, id) && v.made == w.made && v.pending == w.pending
    requires id in w.issued && id in v.items ==> id in w.items
    ensures Single(v, id)
  {
    forall c ensures UnderWay(v, c, id) <==> UnderWay(w, c, id) {}
  }

  lemma SingleCheck(w: World, v: World, step: Step, id: string)
    requires Single(w, id) && step.Check? && forall c | c in w.pending :: w.pending[c].uploadID != step.uploadID
    requires v == if Passes(w, step) then AfterCheck(w, step) else w
    ensures Single(v, id)
  {
    forall c ensures UnderWay(v, c, id) <==> UnderWay(w, c, id) || (v != w && c == step.c && id == step.uploadID) {}
  }

  lemma SingleDelete(w: World, v: World, step: Step, id: string)
    requires Single(w, id) && step.Delete?
    requires v == if step.c in w.pending && w.pending[step.c].Linked?
                  then w.(pending := w.pending - {step.c}, items := w.items - {w.pending[step.c].uploadID}) else w
    ensures Single(v, id)
  {
    forall c ensures UnderWay(v, c, id) <==> UnderWay(w, c, id) && (v == w || c != step.c) {}
  }

  lemma SingleCommit(w: World, v: World, roots: map<DriveId, Id>, step: Step, a: Id, id: string)
    requires Single(w, id) && step.Commit? && CommitAdvances(w, v, roots, step, a)
    ensures Single(v, id)
  {
    forall c | c != step.c ensures UnderWay(v, c, id) <==> UnderWay(w, c, id) {}
    if UnderWay(w, step.c, id) && Made(w.made, id) == [] { assert UnderWay(v, step.c, id) || Made(v.made, id) == []; }
  }

  /** With completions of a token one after the other and no failing deletion, it makes at
      most one inode, whatever other requests come in between; and no two uploads ever share
      a key. */
  lemma {:induction false} OneInodePerToken(worlds: seq<World>, ids: seq<Id>, steps: seq<Step>, roots: map<DriveId, Id>,
                                            buckets: map<DriveId, string>, n: nat, id: string)
    requires n <= |steps| && Complete(worlds, ids, steps, roots, buckets) && id !in worlds[0].made
    requires forall i | 0 <= i < n :: Orderly(worlds[i], steps[i])
    ensures Single(worlds[n], id)
  {
    if n > 0 {
      OneInodePerToken(worlds, ids, steps, roots, buckets, n - 1, id);
      RunKeeps(worlds, ids, steps, roots, buckets, n - 1);
      StepAt(worlds, ids, steps, roots, buckets, n - 1);
      SingleKeeps(worlds[n - 1], worlds[n], roots, buckets, steps[n - 1], ids[n - 1], id);
    }
  }

  /** No two uploads of a run ever share a key. */
  lemma RunKeysDistinct(worlds: seq<World>, ids: seq<Id>, steps: seq<Step>, roots: map<DriveId, Id>,
                        buckets: map<DriveId, string>, i: nat, a: string, b: string)
    requires i <= |steps| && Complete(worlds, ids, steps, roots, buckets)
    requires a in worlds[i].issued && b in worlds[i].issued && a != b
    ensures worlds[i].issued[a].key != worlds[i].issued[b].key
  {
    RunKeeps(worlds, ids, steps, roots, buckets, i);
    KeysDistinct(worlds[i].issued[a].driveID, a, worlds[i].issued[b].driveID, b);
  }

  // ---------------------------------------------------------------- the service makes such runs

  /** UUIDs are new, and never repeat. */
  ghost predicate NewIDs(steps: seq<Step>, used: set<string>) {
    (forall i | 0 <= i < |steps| && steps[i].Initiate? :: IsName(steps[i].uploadID) && steps[i].uploadID !in used)
    && forall i, j | 0 <= i < j < |steps| && steps[i].Initiate? && steps[j].Initiate? ::
         steps[i].uploadID != steps[j].uploadID
  }

  /** Ids issued so far: those at the start, and those the steps brought. */
  ghost predicate IssuedBy(issued: map<string, PresignMeta>, used: set<string>, steps: seq<Step>, n: nat)
    requires n <= |steps|
  {
    forall id | id in issued :: id in used || exists j :: 0 <= j < n && steps[j].Initiate? && steps[j].uploadID == id
  }

  lemma NotYetIssued(issued: map<string, PresignMeta>, used: set<string>, steps: seq<Step>, n: nat)
    requires n < |steps| && IssuedBy(issued, used, steps, n) && NewIDs(steps, used) && steps[n].Initiate?
    ensures steps[n].uploadID !in issued && IsName(steps[n].uploadID)
  {
  }

  lemma IssuedNext(before: map<string, PresignMeta>, after: map<string, PresignMeta>, used: set<string>,
                   steps: seq<Step>, n: nat)
    requires n < |steps| && IssuedBy(before, used, steps, n)
    requires after.Keys <= before.Keys + (if steps[n].Initiate? then {steps[n].uploadID} else {})
    ensures IssuedBy(after, used, steps, n + 1)
  {
    forall id | id in after
      ensures id in used || exists j :: 0 <= j < n + 1 && steps[j].Initiate? && steps[j].uploadID == id {
      if id in before && id !in used {
        var j :| 0 <= j < n && steps[j].Initiate? && steps[j].uploadID == id;
        assert j < n + 1;
      }
    }
  }

  /** Any step of the upload protocol. */
  method Take(u: UploadService, ghost made: map<string, seq<Id>>, pending: map<nat, Pending>, step: Step)
      returns (ghost more: map<string, seq<Id>>, after: map<nat, Pending>, ghost a: Id)
    requires u.vfs.Valid() && !u.vfs.nodes.db.open && u.Tokens() && !step.Other?
    requires step.Initiate? ==> step.uploadID !in u.issued && IsName(step.uploadID)
    modifies u`objects, u`issued, u.registry, u.vfs`owner, u.vfs.nodes.db
    ensures u.vfs.Valid() && !u.vfs.nodes.db.open && u.Tokens()
    ensures Advances(old(WorldOf(u, made, pending)), WorldOf(u, more, after), u.vfs.roots, u.buckets, step, a)
  {
    more, after, a := made, pending, 0;
    if step.Commit? {
      more, after, a := TakeCommit(u, made, pending, step);
    } else {
      after := TakeElse(u, made, pending, step);
    }
  }

  /** A step that leaves the tree alone. */
  method TakeElse(u: UploadService, ghost made: map<string, seq<Id>>, pending: map<nat, Pending>, step: Step)
      returns (after: map<nat, Pending>)
    requires u.Tokens() && !step.Other? && !step.Commit?
    requires step.Initiate? ==> step.uploadID !in u.issued && IsName(step.uploadID)
    modifies u`objects, u`issued, u.registry
    ensures u.Tokens()
    ensures Advances(old(WorldOf(u, made, pending)), WorldOf(u, made, after), u.vfs.roots, u.buckets, step, 0)
  {
    after := pending;
    match step
    case Initiate(_, _, _, _, _, _, _, _, _, _, _) => TakeInitiate(u, made, pending, step);
    case ClientPut(obj) => u.ClientPut(obj);
    case Check(_, _, _, _, _, _, _) => after := TakeCheck(u, made, pending, step);
    case Delete(_, _) => after := TakeDelete(u, made, pending, step);
    case Expire(id) => u.registry.Delete(id);
  }

  method TakeInitiate(u: UploadService, ghost made: map<string, seq<Id>>, ghost pending: map<nat, Pending>, step: Step)
    requires u.Tokens() && step.Initiate? && step.uploadID !in u.issued && IsName(step.uploadID)
    modifies u`issued, u.registry
    ensures u.Tokens()
    ensures Advances(old(WorldOf(u, made, pending)), WorldOf(u, made, pending), u.vfs.roots, u.buckets, step, 0)
  {
    var _ := u.InitiateUpload(step.userID, step.driveID, step.path, step.size, step.expiry, step.uploadID,
                              step.started, step.stored, step.putFails, step.presignFails, step.withdrawFails);
  }

  method TakeCheck(u: UploadService, ghost made: map<string, seq<Id>>, pending: map<nat, Pending>, step: Step)
      returns (after: map<nat, Pending>)
    requires u.Tokens() && step.Check?
    ensures Advances(WorldOf(u, made, pending), WorldOf(u, made, after), u.vfs.roots, u.buckets, step, 0)
  {
    if step.c in pending { return pending; }
    var checked := u.CheckUpload(step.userID, step.driveID, step.uploadID, step.contentLength, step.now,
                                 step.storeFails);
    if checked.Err? { return pending; }
    return pending[step.c := Passed(step.uploadID, checked.value, step.driveID, step.contentLength)];
  }

  method TakeCommit(u: UploadService, ghost made: map<string, seq<Id>>, pending: map<nat, Pending>, step: Step)
      returns (ghost more: map<string, seq<Id>>, after: map<nat, Pending>, ghost a: Id)
    requires u.vfs.Valid() && !u.vfs.nodes.db.open && u.Tokens() && step.Commit?
    modifies u.vfs.nodes.db, u.vfs`owner
    ensures u.vfs.Valid() && !u.vfs.nodes.db.open && u.Tokens()
    ensures CommitAdvances(old(WorldOf(u, made, pending)), WorldOf(u, more, after), u.vfs.roots, step, a)
  {
    more, after, a := made, pending, 0;
    if step.c in pending && pending[step.c].Passed? {
      var p := pending[step.c];
      var ino := Runs.NewID(u.vfs, {});
      var created := u.CommitUpload(p.meta, p.driveID, p.contentLength, ino, step.faults);
      a := ino;
      if created.Ok? {
        more, after := made[p.uploadID := Made(made, p.uploadID) + [ino]], pending[step.c := Linked(p.uploadID)];
      } else {
        after := pending - {step.c};
      }
    }
  }

  method TakeDelete(u: UploadService, ghost made: map<string, seq<Id>>, pending: map<nat, Pending>, step: Step)
      returns (after: map<nat, Pending>)
    requires u.Tokens() && step.Delete?
    modifies u.registry
    ensures u.Tokens()
    ensures Advances(old(WorldOf(u, made, pending)), WorldOf(u, made, after), u.vfs.roots, u.buckets, step, 0)
  {
    after := pending;
    if step.c in pending && pending[step.c].Linked? {
      var _ := u.DeleteToken(pending[step.c].uploadID, step.fails);
      after := pending - {step.c};
    }
  }

  /** Any other request. */
  method TakeOther(u: UploadService, ghost made: map<string, seq<Id>>, ghost pending: map<nat, Pending>, step: Step)
      returns (ghost a: Id)
    requires u.vfs.Valid() && !u.vfs.nodes.db.open && u.Tokens() && step.Other?
    modifies u.vfs, u.vfs.nodes.db
    ensures u.vfs.Valid() && !u.vfs.nodes.db.open && u.Tokens()
    ensures Advances(old(WorldOf(u, made, pending)), WorldOf(u, made, pending), u.vfs.roots, u.buckets, step, a)
    ensures Runs.Takes(old(u.vfs.nodes.db.committed.fs), u.vfs.nodes.db.committed.fs, Runs.SetupOf(u.vfs), step.call, a)
  {
    var _, id := Runs.Serve(u.vfs, step.call);
    a := id;
  }

  /** The other requests did what they do. */
  ghost predicate Served(worlds: seq<World>, ids: seq<Id>, steps: seq<Step>, s: Runs.Setup, n: nat) {
    n < |worlds| && n <= |ids| && n <= |steps|
    && forall i | 0 <= i < n && steps[i].Other? ::
         Runs.Takes(worlds[i].fs, worlds[i + 1].fs, s, steps[i].call, ids[i])
  }

  lemma ServedMore(worlds: seq<World>, ids: seq<Id>, steps: seq<Step>, s: Runs.Setup, n: nat, v: World, a: Id)
    requires |worlds| == n + 1 && |ids| == n && n < |steps| && Served(worlds, ids, steps, s, n)
    requires steps[n].Other? ==> Runs.Takes(worlds[n].fs, v.fs, s, steps[n].call, a)
    ensures Served(worlds + [v], ids + [a], steps, s, n + 1)
  {
    var more, further := worlds + [v], ids + [a];
    forall i | 0 <= i < n + 1 && steps[i].Other?
      ensures Runs.Takes(more[i].fs, more[i + 1].fs, s, steps[i].call, further[i]) {}
  }

  /** Takes the steps in order: the service only ever makes such runs. */
  method Run(u: UploadService, steps: seq<Step>) returns (ghost worlds: seq<World>, ghost ids: seq<Id>)
    requires u.vfs.Valid() && !u.vfs.nodes.db.open && u.Tokens() && NewIDs(steps, u.issued.Keys)
    modifies u`objects, u`issued, u.registry, u.vfs, u.vfs.nodes.db
    ensures u.vfs.Valid() && !u.vfs.nodes.db.open && u.Tokens()
    ensures Complete(worlds, ids, steps, u.vfs.roots, u.buckets) && worlds[0] == old(WorldOf(u, map[], map[]))
    ensures Served(worlds, ids, steps, Runs.SetupOf(u.vfs), |steps|)
  {
    var pending: map<nat, Pending> := map[];
    ghost var made: map<string, seq<Id>> := map[];
    worlds, ids := [WorldOf(u, made, pending)], [];
    ghost var used := u.issued.Keys;
    for i := 0 to |steps|
      invariant u.vfs.Valid() && !u.vfs.nodes.db.open && u.Tokens() && IssuedBy(u.issued, used, steps, i)
      invariant Trace(worlds, ids, steps, u.vfs.roots, u.buckets, i) && Tracked(worlds[i])
      invariant worlds[0] == old(WorldOf(u, map[], map[])) && worlds[i] == WorldOf(u, made, pending)
      invariant Served(worlds, ids, steps, Runs.SetupOf(u.vfs), i)
    {
      ghost var w, a := WorldOf(u, made, pending), 0;
      if steps[i].Other? {
        a := TakeOther(u, made, pending, steps[i]);
      } else {
        if steps[i].Initiate? { NotYetIssued(u.issued, used, steps, i); }
        made, pending, a := Take(u, made, pending, steps[i]);
      }
      ServedMore(worlds, ids, steps, Runs.SetupOf(u.vfs), i, WorldOf(u, made, pending), a);
      worlds, ids := OneMoreStep(w, WorldOf(u, made, pending), worlds, ids, steps, u.vfs.roots, u.buckets, i, a, used);
    }
  }

  lemma OneMoreStep(w: World, v: World, worlds: seq<World>, ids: seq<Id>, steps: seq<Step>, roots: map<DriveId, Id>,
                    buckets: map<DriveId, string>, n: nat, a: Id, used: set<string>)
      returns (more: seq<World>, further: seq<Id>)
    requires n < |steps| && Trace(worlds, ids, steps, roots, buckets, n) && worlds[n] == w && Tracked(w)
    requires Advances(w, v, roots, buckets, steps[n], a) && IssuedBy(w.issued, used, steps, n)
    ensures more == worlds + [v] && further == ids + [a]
    ensures Trace(more, further, steps, roots, buckets, n + 1) && more[0] == worlds[0] && more[n + 1] == v && Tracked(v)
    ensures IssuedBy(v.issued, used, steps, n + 1)
  {
    AdvanceKeeps(w, v, roots, buckets, steps[n], a);
    IssuedStays(w, v, roots, buckets, steps[n], a);
    IssuedNext(w.issued, v.issued, used, steps, n);
    more, further := worlds + [v], ids + [a];
    forall i | 0 <= i < n + 1 ensures StepOk(more, further, steps, roots, buckets, i) {
      if i < n { assert StepOk(worlds, ids, steps, roots, buckets, i); }
    }
  }
}
