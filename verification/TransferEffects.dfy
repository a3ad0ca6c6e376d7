/** What the requests about whole workspaces and an import do to the tables, read off the tables
    before and after, and exactly when they succeed (internal/store/store.go,
    internal/project/transfer.go). */
module TransferEffects {
  import opened Text
  import opened WorkspaceStore
  import opened FreshNames
  import opened Facade
  import opened Transfer

  // ------------------------------------------------------------------------ workspaces

  ghost predicate Taken(db: DB, name: string, except: set<nat>) {
    exists x :: x in db.workspaces && x !in except && db.workspaces[x].name == name
  }

  lemma BlankIsSpace(name: string)
    ensures Blank(name) <==> forall i :: 0 <= i < |name| ==> IsSpace(name[i])
  {
    var a, b := TrimSpaceSplits(name);
    if AllSpace(name) {
      TrimSpaceOfSpace(name);
    }
    if TrimSpace(name) != "" {
      assert name[|a|] == TrimSpace(name)[0];
    }
  }

  lemma NewWorkspaceDoes(reg: Registry, db: DB, name: string)
    ensures var r := Handle(reg, db, NewWorkspace(name));
      && r.error == (if forall i :: 0 <= i < |name| ==> IsSpace(name[i]) then Some(NameRequired)
                     else if Taken(db, name, {}) then Some(WorkspaceExists) else None)
      && (r.error.Some? ==> r.db == db)
      && (r.error == None ==>
            && r.db.nextId == db.nextId + 1 && r.db.active == Some(db.nextId)
            && r.db.workspaces == db.workspaces[db.nextId := Workspace(name, "", map[])])
  {
    BlankIsSpace(name);
    hide Blank;
    assert NameTaken(db, name, None) <==> Taken(db, name, {});
  }

  lemma RenameDoes(reg: Registry, db: DB, id: nat, name: string)
    ensures var r := Handle(reg, db, Rename(id, name));
      && r.error == (if forall i :: 0 <= i < |name| ==> IsSpace(name[i]) then Some(NameRequired)
                     else if id !in db.workspaces then Some(WorkspaceNotFound)
                     else if Taken(db, name, {id}) then Some(WorkspaceExists) else None)
      && (r.error.Some? ==> r.db == db)
      && (r.error == None ==>
            && r.db.nextId == db.nextId && r.db.active == db.active
            && r.db.workspaces == db.workspaces[id := Workspace(name, db.workspaces[id].active, db.workspaces[id].profiles)])
  {
    BlankIsSpace(name);
    hide Blank;
    assert NameTaken(db, name, Some(id)) <==> Taken(db, name, {id});
  }

  /** A workspace goes with all its profiles, and is not the active one any more. */
  lemma RemoveDoes(reg: Registry, db: DB, id: nat)
    ensures var r := Handle(reg, db, Remove(id));
      && r.error == (if id in db.workspaces then None else Some(WorkspaceNotFound))
      && (r.error.Some? ==> r.db == db)
      && (r.error == None ==>
            && r.db.nextId == db.nextId && r.db.active == (if db.active == Some(id) then None else db.active)
            && (forall x :: x in r.db.workspaces <==> x in db.workspaces && x != id)
            && (forall x :: x in r.db.workspaces ==> r.db.workspaces[x] == db.workspaces[x]))
  {
  }

  lemma SwitchDoes(reg: Registry, db: DB, id: nat)
    ensures var r := Handle(reg, db, Switch(id));
      && r.error == (if id in db.workspaces then None else Some(WorkspaceNotFound))
      && r.db == if id in db.workspaces then DB(db.workspaces, db.nextId, Some(id)) else db
  {
  }

  // --------------------------------------------------------------------------- imports

  /** What the id, the type and the name of an imported service fall back to. */
  ghost predicate IsImportOf(sc: ServiceExport, id: string, e: Entry) {
    && id == (if sc.id != "" then sc.id else sc.name)
    && e.type_ == (if sc.type_ != "" then sc.type_ else id)
    && e.name == (if sc.name != "" then sc.name else id)
    && e.config == sc.config
  }

  ghost function IdOf(sc: ServiceExport): string {
    if sc.id != "" then sc.id else sc.name
  }

  /** The services of an imported profile: one for each id, as the last instance of that id
      says. */
  ghost predicate IsImported(list: seq<ServiceExport>, services: Services) {
    && (forall id :: id in services <==> exists i :: 0 <= i < |list| && IdOf(list[i]) == id)
    && (forall i :: 0 <= i < |list| && (forall j :: i < j < |list| ==> IdOf(list[j]) != IdOf(list[i])) ==>
          IdOf(list[i]) in services && IsImportOf(list[i], IdOf(list[i]), services[IdOf(list[i])]))
  }

  lemma {:induction false} LastOf(list: seq<ServiceExport>, i: nat) returns (k: nat)
    requires i < |list|
    ensures i <= k < |list| && IdOf(list[k]) == IdOf(list[i]) && forall j :: k < j < |list| ==> IdOf(list[j]) != IdOf(list[k])
    decreases |list| - i
  {
    if forall j :: i < j < |list| ==> IdOf(list[j]) != IdOf(list[i]) {
      k := i;
    } else {
      var j :| i < j < |list| && IdOf(list[j]) == IdOf(list[i]);
      k := LastOf(list, j);
    }
  }

  lemma ServicesImported(list: seq<ServiceExport>)
    ensures IsImported(list, ServicesIn(list))
  {
    hide ServicesIn;
    assert forall i :: 0 <= i < |list| ==> IdOf(list[i]) == ImportId(list[i]);
    forall i | 0 <= i < |list| && (forall j :: i < j < |list| ==> IdOf(list[j]) != IdOf(list[i]))
      ensures IdOf(list[i]) in ServicesIn(list) && IsImportOf(list[i], IdOf(list[i]), ServicesIn(list)[IdOf(list[i])])
    {
      ServicesInAt(list, i);
    }
    forall id ensures id in ServicesIn(list) <==> exists i :: 0 <= i < |list| && IdOf(list[i]) == id {
      if i :| 0 <= i < |list| && IdOf(list[i]) == id {
        var k := LastOf(list, i);
        ServicesInAt(list, k);
      } else {
        ServicesInOnly(list, id);
      }
    }
  }

  /** A profile that the import accepts: named, all its services of known types and with configs
      valid for them. */
  ghost predicate Admitted(reg: Registry, p: ProfileExport) {
    p.name != "" && forall i :: 0 <= i < |p.services| ==>
      var t := if p.services[i].type_ != "" then p.services[i].type_ else p.services[i].id;
      t in reg.types && reg.valid(t, p.services[i].config)
  }

  lemma AdmittedIsChecked(reg: Registry, list: seq<ProfileExport>)
    ensures CheckProfiles(reg, list) == None <==> forall i :: 0 <= i < |list| ==> Admitted(reg, list[i])
  {
    CheckProfilesAll(reg, list);
    forall i | 0 <= i < |list| ensures Acceptable(reg, list[i]) <==> Admitted(reg, list[i]) {
      CheckServicesAll(reg, list[i].services);
    }
  }

  /** The name of an imported workspace: its own, or with the least number from 2 on that makes it
      new. */
  ghost predicate IsNumbered(db: DB, base: string, name: string, n: nat) {
    name == base + " (" + Digits(n) + ")" && forall k: nat :: 2 <= k < n ==> Taken(db, base + " (" + Digits(k) + ")", {})
  }

  ghost predicate IsNewName(db: DB, base: string, name: string) {
    && !Taken(db, name, {})
    && (name == base || (Taken(db, base, {}) && exists n: nat :: n >= 2 && IsNumbered(db, base, name, n)))
  }

  lemma TakenIsNamed(db: DB, name: string)
    ensures name in Names(db) <==> Taken(db, name, {})
  {
  }

  lemma FreshIsNewName(db: DB, base: string)
    ensures IsNewName(db, base, Fresh(Names(db), Parenthesized, base))
  {
    hide Taken, Names, Fresh;
    var name := Fresh(Names(db), Parenthesized, base);
    TakenIsNamed(db, name);
    TakenIsNamed(db, base);
    if name != base {
      var n :| 2 <= n && name == Candidate(Parenthesized, base, n) && AllTaken(Names(db), Parenthesized, base, n);
      forall k: nat | 2 <= k < n ensures Taken(db, base + " (" + Digits(k) + ")", {}) {
        TakenIsNamed(db, Candidate(Parenthesized, base, k));
      }
      assert IsNumbered(db, base, name, n);
    }
  }

  /** No two profiles of a payload have one name. */
  ghost predicate NamesDiffer(list: seq<ProfileExport>) {
    forall i, j :: 0 <= i < j < |list| ==> list[i].name != list[j].name
  }

  lemma {:induction false} RepeatedNameFails(db: DB, id: nat, list: seq<ProfileExport>)
    requires id in db.workspaces && db.workspaces[id].profiles == map[]
    ensures CreateProfiles(db, id, list).error == None ==> NamesDiffer(list)
  {
    hide ServicesIn;
    if list == [] {
    } else {
      var front, last := list[..|list| - 1], list[|list| - 1];
      RepeatedNameFails(db, id, front);
      if CreateProfiles(db, id, list).error == None {
        CreatedProfiles(db, id, front);
        assert forall i :: 0 <= i < |front| ==> front[i] in front;
      }
    }
  }

  /** The profiles of a payload, each with its services. */
  ghost predicate AreImported(list: seq<ProfileExport>, profiles: map<string, Services>) {
    && (forall p :: p in profiles <==> exists i :: 0 <= i < |list| && list[i].name == p)
    && (forall i :: 0 <= i < |list| ==> list[i].name in profiles && IsImported(list[i].services, profiles[list[i].name]))
  }

  /** A name that is not white space is still not with a number added. */
  lemma NamedStays(reg: Registry, db: DB, base: string, loose: set<nat>)
    requires DbOk(reg, db, loose)
    ensures CreateWorkspace(db, Fresh(Names(db), Parenthesized, base)).error == None <==> !Blank(base)
  {
    if Blank(base) {
      assert base !in Names(db);
    } else {
      FreshIsNamed(db, base, Fresh(Names(db), Parenthesized, base));
    }
  }

  lemma ImportBegins(reg: Registry, db: DB, exp: WorkspaceExport, loose: set<nat>)
    requires DbOk(reg, db, loose)
    ensures Begins(reg, db, exp) <==>
      && exp.version == 1 && !(forall i :: 0 <= i < |exp.name| ==> IsSpace(exp.name[i]))
      && forall i :: 0 <= i < |exp.profiles| ==> Admitted(reg, exp.profiles[i])
  {
    hide DbOk, CheckProfiles, CreateWorkspace, Fresh, Blank, Admitted;
    AdmittedIsChecked(reg, exp.profiles);
    NamedStays(reg, db, exp.name, loose);
    BlankIsSpace(exp.name);
  }

  /** All profiles created: what they hold. */
  lemma FilledHolds(db: DB, id: nat, list: seq<ProfileExport>)
    requires id in db.workspaces && db.workspaces[id].profiles == map[] && NamesDiffer(list)
    ensures var r := CreateProfiles(db, id, list);
      r.error == None && id in r.db.workspaces && AreImported(list, r.db.workspaces[id].profiles)
  {
    hide CreateProfiles, ServicesIn, IsImported;
    DistinctProfilesCreated(db, id, list);
    CreatedProfiles(db, id, list);
    var t := CreateProfiles(db, id, list).db;
    forall i | 0 <= i < |list|
      ensures list[i].name in t.workspaces[id].profiles && IsImported(list[i].services, t.workspaces[id].profiles[list[i].name])
    {
      assert IsCreated(t, id, list[i]);
      ServicesImported(list[i].services);
    }
    forall p ensures p in t.workspaces[id].profiles <==> exists i :: 0 <= i < |list| && list[i].name == p {
      if p in t.workspaces[id].profiles {
        var q :| q in list && q.name == p;
      }
      if i :| 0 <= i < |list| && list[i].name == p {
        assert list[i] in list;
      }
    }
  }

  /** A workspace just created, with profiles added. */
  lemma OneMore(db: DB, name: string, after: DB) returns (w: Workspace)
    requires OnlyProfilesOf(db.(workspaces := db.workspaces[db.nextId := Workspace(name, "", map[])], nextId := db.nextId + 1), after, db.nextId)
    ensures after == db.(workspaces := db.workspaces[db.nextId := w], nextId := db.nextId + 1)
    ensures w.name == name && w.active == "" && db.nextId in after.workspaces && w.profiles == after.workspaces[db.nextId].profiles
  {
    w := after.workspaces[db.nextId];
    assert after.workspaces == db.workspaces[db.nextId := w];
  }

  /** An import that has begun: the workspace, with its profiles if all can be created. */
  lemma ImportFilled(reg: Registry, db: DB, exp: WorkspaceExport, loose: set<nat>) returns (filled: Reply, w: Workspace)
    requires RegistryOk(reg) && DbOk(reg, db, loose) && Begins(reg, db, exp)
    ensures ImportWorkspace(reg, db, exp) == Activated(filled, db.nextId, exp)
    ensures db.nextId !in db.workspaces && IsNewName(db, exp.name, w.name) && w.active == ""
    ensures filled.db == db.(workspaces := db.workspaces[db.nextId := w], nextId := db.nextId + 1)
    ensures filled.error == None <==> NamesDiffer(exp.profiles)
    ensures filled.error == None ==> AreImported(exp.profiles, w.profiles)
  {
    hide *;
    filled := ImportBegun(reg, db, exp);
    BegunParts(reg, db, exp);
    var name := Fresh(Names(db), Parenthesized, exp.name);
    FreshIsNewName(db, exp.name);
    CreatedOk(reg, db, name, loose);
    var created := CreateWorkspace(db, name).db;
    RepeatedNameFails(created, db.nextId, exp.profiles);
    CreateProfilesKeeps(reg, created, db.nextId, exp.profiles, loose);
    if NamesDiffer(exp.profiles) {
      FilledHolds(created, db.nextId, exp.profiles);
    }
    w := OneMore(db, name, filled.db);
  }

  /** The last steps of an import and of the request it came with. */
  lemma ImportEnds(reg: Registry, db: DB, exp: WorkspaceExport, filled: Reply, w: Workspace)
    requires ImportWorkspace(reg, db, exp) == Activated(filled, db.nextId, exp)
    requires w.active == "" && filled.db == db.(workspaces := db.workspaces[db.nextId := w], nextId := db.nextId + 1)
    ensures var r := Handle(reg, db, ImportPayload(exp));
      && r.error == filled.error
      && (r.error == None ==> r.db == DB(db.workspaces[db.nextId := w.(active := exp.active)], db.nextId + 1, Some(db.nextId)))
  {
    hide ImportWorkspace, HandleProfile;
    assert db.workspaces[db.nextId := w][db.nextId := w.(active := exp.active)] == db.workspaces[db.nextId := w.(active := exp.active)];
  }

  lemma RefusedImportFails(reg: Registry, db: DB, exp: WorkspaceExport)
    requires !Begins(reg, db, exp)
    ensures Handle(reg, db, ImportPayload(exp)).error.Some?
  {
    hide ImportWorkspace, HandleProfile, Begins;
    ImportRefused(reg, db, exp);
  }

  /** An import goes through exactly when its version is known, it has a name, its profiles are
      named and hold known services with valid configs, and no two of them have one name.
      Then it adds and activates one workspace, which holds just what the payload says. */
  lemma ImportDoes(reg: Registry, db: DB, exp: WorkspaceExport, loose: set<nat>)
    requires RegistryOk(reg) && DbOk(reg, db, loose)
    ensures var r := Handle(reg, db, ImportPayload(exp));
      && (r.error == None <==>
            && exp.version == 1 && !(forall i :: 0 <= i < |exp.name| ==> IsSpace(exp.name[i]))
            && (forall i :: 0 <= i < |exp.profiles| ==> Admitted(reg, exp.profiles[i]))
            && NamesDiffer(exp.profiles))
      && (r.error == None ==>
            && db.nextId !in db.workspaces && r.db.nextId == db.nextId + 1 && r.db.active == Some(db.nextId)
            && db.nextId in r.db.workspaces && r.db.workspaces == db.workspaces[db.nextId := r.db.workspaces[db.nextId]]
            && var w := r.db.workspaces[db.nextId];
               IsNewName(db, exp.name, w.name) && w.active == exp.active && AreImported(exp.profiles, w.profiles))
  {
    hide *;
    ImportBegins(reg, db, exp, loose);
    if Begins(reg, db, exp) {
      var filled, w := ImportFilled(reg, db, exp, loose);
      ImportEnds(reg, db, exp, filled, w);
    } else {
      RefusedImportFails(reg, db, exp);
    }
  }
}
