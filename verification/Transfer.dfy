/** Exporting a workspace and importing it again (internal/project/transfer.go). */
module Transfer {
  import opened Text
  import opened Order
  import opened WorkspaceStore
  import opened FreshNames
  import opened Facade

  const EXPORT_VERSION := 1

  datatype ServiceExport = ServiceExport(id: string, type_: string, name: string, config: Config)

  datatype ProfileExport = ProfileExport(name: string, services: seq<ServiceExport>)

  datatype WorkspaceExport = WorkspaceExport(version: int, name: string, active: string, profiles: seq<ProfileExport>)

  // -------------------------------------------------------------------------- exporting

  function ServiceOut(services: Services, id: string): ServiceExport
    requires id in services
  {
    var e := services[id];
    ServiceExport(id, ResolveType(e, id), ResolveName(e, id), e.config)
  }

  function Ids(list: seq<ServiceExport>): seq<string> {
    seq(|list|, i requires 0 <= i < |list| => list[i].id)
  }

  function ProfileNames(list: seq<ProfileExport>): seq<string> {
    seq(|list|, i requires 0 <= i < |list| => list[i].name)
  }

  /** A profile's services, sorted by id, with types and names resolved. */
  ghost predicate IsServicesExport(services: Services, list: seq<ServiceExport>) {
    && IsListing(Ids(list), services.Keys)
    && (forall i :: 0 <= i < |list| ==> list[i].id in services && list[i] == ServiceOut(services, list[i].id))
  }

  /** A workspace's profiles, sorted by name. */
  ghost predicate IsExport(w: Workspace, exp: WorkspaceExport) {
    && exp.version == EXPORT_VERSION && exp.name == w.name && exp.active == w.active
    && IsListing(ProfileNames(exp.profiles), w.profiles.Keys)
    && (forall i :: 0 <= i < |exp.profiles| ==>
          exp.profiles[i].name in w.profiles && IsServicesExport(w.profiles[exp.profiles[i].name], exp.profiles[i].services))
  }

  method ExportServices(services: Services) returns (out: seq<ServiceExport>)
    ensures IsServicesExport(services, out)
  {
    var ids := SortedKeys(services.Keys);
    out := [];
    for i := 0 to |ids|
      invariant |out| == i
      invariant forall k :: 0 <= k < i ==> ids[k] in services && out[k] == ServiceOut(services, ids[k])
    {
      assert ids[i] in ids;
      out := out + [ServiceOut(services, ids[i])];
    }
    assert Ids(out) == ids;
  }

  method ExportWorkspace(store: Store, id: nat) returns (exp: WorkspaceExport, error: Option<Error>)
    ensures id !in store.workspaces ==> error == Some(WorkspaceNotFound)
    ensures id in store.workspaces ==> error == None && IsExport(store.workspaces[id], exp)
  {
    exp := WorkspaceExport(EXPORT_VERSION, "", "", []);
    if id !in store.workspaces {
      return exp, Some(WorkspaceNotFound);
    }
    var w := store.workspaces[id];
    var names := SortedKeys(w.profiles.Keys);
    var profiles: seq<ProfileExport> := [];
    for i := 0 to |names|
      invariant |profiles| == i
      invariant forall k :: 0 <= k < i ==>
        names[k] in w.profiles && profiles[k].name == names[k] && IsServicesExport(w.profiles[names[k]], profiles[k].services)
    {
      assert names[i] in names;
      var services := ExportServices(w.profiles[names[i]]);
      profiles := profiles + [ProfileExport(names[i], services)];
    }
    assert ProfileNames(profiles) == names;
    exp := WorkspaceExport(EXPORT_VERSION, w.name, w.active, profiles);
    error := None;
  }

  // -------------------------------------------------------------------------- importing

  function ImportType(sc: ServiceExport): string {
    if sc.type_ == "" then sc.id else sc.type_
  }

  function CheckService(reg: Registry, sc: ServiceExport): Option<Error> {
    if ImportType(sc) !in reg.types then Some(UnknownService)
    else if !reg.valid(ImportType(sc), sc.config) then Some(InvalidConfig)
    else None
  }

  function CheckServices(reg: Registry, list: seq<ServiceExport>): Option<Error> {
    if list == [] then None
    else if CheckServices(reg, list[..|list| - 1]).Some? then CheckServices(reg, list[..|list| - 1])
    else CheckService(reg, list[|list| - 1])
  }

  function CheckProfiles(reg: Registry, list: seq<ProfileExport>): Option<Error> {
    if list == [] then None
    else if CheckProfiles(reg, list[..|list| - 1]).Some? then CheckProfiles(reg, list[..|list| - 1])
    else if list[|list| - 1].name == "" then Some(UnnamedProfile)
    else CheckServices(reg, list[|list| - 1].services)
  }

  function ImportId(sc: ServiceExport): string {
    if sc.id == "" then sc.name else sc.id
  }

  function ServiceIn(sc: ServiceExport): Entry {
    var id := ImportId(sc);
    Entry(if sc.type_ == "" then id else sc.type_, if sc.name == "" then id else sc.name, sc.config)
  }

  /** Later instances of an id replace earlier ones. */
  function ServicesIn(list: seq<ServiceExport>): Services {
    if list == [] then map[] else ServicesIn(list[..|list| - 1])[ImportId(list[|list| - 1]) := ServiceIn(list[|list| - 1])]
  }

  /** Creates the profiles one by one, up to the first that fails. */
  function CreateProfiles(db: DB, id: nat, list: seq<ProfileExport>): Reply {
    if list == [] then Reply(db, None)
    else
      var before := CreateProfiles(db, id, list[..|list| - 1]);
      if before.error.Some? then before
      else CreateProfile(before.db, id, list[|list| - 1].name, ServicesIn(list[|list| - 1].services))
  }

  /** The whole import. What fails after the workspace's creation leaves what was created. */
  function ImportWorkspace(reg: Registry, db: DB, exp: WorkspaceExport): Reply {
    if exp.version != EXPORT_VERSION then Reply(db, Some(UnsupportedVersion))
    else if CheckProfiles(reg, exp.profiles).Some? then Reply(db, CheckProfiles(reg, exp.profiles))
    else
      var created := CreateWorkspace(db, Fresh(Names(db), Parenthesized, exp.name));
      if created.error.Some? then created
      else
        var filled := CreateProfiles(created.db, db.nextId, exp.profiles);
        if filled.error.Some? || exp.active == "" then filled
        else SetWorkspaceActiveProfile(filled.db, db.nextId, exp.active)
  }

  lemma {:induction false} CheckProfilesStays(reg: Registry, list: seq<ProfileExport>, n: nat)
    requires n <= |list| && CheckProfiles(reg, list[..n]).Some?
    ensures CheckProfiles(reg, list) == CheckProfiles(reg, list[..n])
  {
    if n == |list| {
      assert list[..n] == list;
    } else {
      assert list[..|list| - 1][..n] == list[..n];
      CheckProfilesStays(reg, list[..|list| - 1], n);
    }
  }

  /** The first error is the error. */
  lemma {:induction false} CheckServicesStays(reg: Registry, list: seq<ServiceExport>, n: nat)
    requires n <= |list| && CheckServices(reg, list[..n]).Some?
    ensures CheckServices(reg, list) == CheckServices(reg, list[..n])
  {
    if n == |list| {
      assert list[..n] == list;
    } else {
      assert list[..|list| - 1][..n] == list[..n];
      CheckServicesStays(reg, list[..|list| - 1], n);
    }
  }

  method ValidateImport(reg: Registry, exp: WorkspaceExport) returns (error: Option<Error>)
    ensures error == CheckProfiles(reg, exp.profiles)
  {
    var list := exp.profiles;
    for i := 0 to |list|
      invariant CheckProfiles(reg, list[..i]) == None
    {
      assert list[..i + 1][..i] == list[..i];
      if list[i].name == "" {
        CheckProfilesStays(reg, list, i + 1);
        return Some(UnnamedProfile);
      }
      var services := list[i].services;
      for j := 0 to |services|
        invariant CheckServices(reg, services[..j]) == None
      {
        assert services[..j + 1][..j] == services[..j];
        if CheckService(reg, services[j]).Some? {
          CheckServicesStays(reg, services, j + 1);
          CheckProfilesStays(reg, list, i + 1);
          return CheckService(reg, services[j]);
        }
      }
      assert services[..|services|] == services;
    }
    assert list[..|list|] == list;
    error := None;
  }

  method ImportServices(list: seq<ServiceExport>) returns (out: Services)
    ensures out == ServicesIn(list)
  {
    out := map[];
    for i := 0 to |list|
      invariant out == ServicesIn(list[..i])
    {
      assert list[..i + 1][..i] == list[..i];
      out := out[ImportId(list[i]) := ServiceIn(list[i])];
    }
    assert list[..|list|] == list;
  }

  lemma {:induction false} CreateProfilesStays(db: DB, id: nat, list: seq<ProfileExport>, n: nat)
    requires n <= |list| && CreateProfiles(db, id, list[..n]).error.Some?
    ensures CreateProfiles(db, id, list) == CreateProfiles(db, id, list[..n])
  {
    if n == |list| {
      assert list[..n] == list;
    } else {
      assert list[..|list| - 1][..n] == list[..n];
      CreateProfilesStays(db, id, list[..|list| - 1], n);
    }
  }

  method CreateAll(store: Store, id: nat, list: seq<ProfileExport>) returns (error: Option<Error>)
    modifies store
    ensures Reply(store.Db(), error) == CreateProfiles(old(store.Db()), id, list)
  {
    ghost var db := store.Db();
    error := None;
    for i := 0 to |list|
      invariant error == None && Reply(store.Db(), None) == CreateProfiles(db, id, list[..i])
    {
      assert list[..i + 1][..i] == list[..i];
      var services := ImportServices(list[i].services);
      error := store.NewProfile(id, list[i].name, services);
      if error.Some? {
        CreateProfilesStays(db, id, list, i + 1);
        return;
      }
    }
    assert list[..|list|] == list;
  }

  method Import(store: Store, reg: Registry, exp: WorkspaceExport) returns (id: nat, error: Option<Error>)
    modifies store
    ensures Reply(store.Db(), error) == ImportWorkspace(reg, old(store.Db()), exp)
    ensures error == None ==> id == old(store.nextId)
  {
    id := store.nextId;
    if exp.version != EXPORT_VERSION {
      return id, Some(UnsupportedVersion);
    }
    error := ValidateImport(reg, exp);
    if error.Some? {
      return;
    }
    var taken := store.ListNames();
    var name := FindFresh(taken, Parenthesized, exp.name);
    id, error := store.Create(name);
    if error.Some? {
      return;
    }
    error := CreateAll(store, id, exp.profiles);
    if error.Some? || exp.active == "" {
      return;
    }
    error := store.SetActiveProfile(id, exp.active);
  }

  // --------------------------------------------------------------- imports and invariants

  lemma {:induction false} CheckServicesAll(reg: Registry, list: seq<ServiceExport>)
    ensures CheckServices(reg, list) == None <==> forall i :: 0 <= i < |list| ==> CheckService(reg, list[i]) == None
  {
    if list == [] {
    } else {
      CheckServicesAll(reg, list[..|list| - 1]);
    }
  }

  /** A profile that an import accepts. */
  ghost predicate Acceptable(reg: Registry, p: ProfileExport) {
    p.name != "" && CheckServices(reg, p.services) == None
  }

  lemma {:induction false} CheckProfilesAll(reg: Registry, list: seq<ProfileExport>)
    ensures CheckProfiles(reg, list) == None <==> forall i :: 0 <= i < |list| ==> Acceptable(reg, list[i])
  {
    if list == [] {
    } else {
      CheckProfilesAll(reg, list[..|list| - 1]);
    }
  }

  /** What passes the check is stored with a known type and a valid config, under whatever id
      it falls back to. */
  lemma {:induction false} ServicesInOk(reg: Registry, list: seq<ServiceExport>)
    requires RegistryOk(reg) && CheckServices(reg, list) == None
    ensures ServicesOk(reg, ServicesIn(list))
  {
    if list == [] {
    } else {
      var sc := list[|list| - 1];
      ServicesInOk(reg, list[..|list| - 1]);
      assert ServiceOk(reg, ImportId(sc), ServiceIn(sc));
    }
  }

  predicate OnlyProfilesOf(before: DB, after: DB, id: nat) {
    && id in before.workspaces && id in after.workspaces
    && after == before.(workspaces := before.workspaces[id := before.workspaces[id].(profiles := after.workspaces[id].profiles)])
  }

  /** Creating the profiles touches the new workspace only, and only its profiles. */
  lemma {:induction false} CreateProfilesKeeps(reg: Registry, db: DB, id: nat, list: seq<ProfileExport>, loose: set<nat>)
    requires RegistryOk(reg) && DbOk(reg, db, loose) && id in db.workspaces && CheckProfiles(reg, list) == None
    ensures var r := CreateProfiles(db, id, list);
      DbOk(reg, r.db, loose) && OnlyProfilesOf(db, r.db, id)
  {
    hide DbOk;
    if list == [] {
    } else {
      var front, last := list[..|list| - 1], list[|list| - 1];
      CreateProfilesKeeps(reg, db, id, front, loose);
      CheckProfilesAll(reg, list);
      assert Acceptable(reg, last);
      ServicesInOk(reg, last.services);
      PutProfileOk(reg, CreateProfiles(db, id, front).db, id, last.name, ServicesIn(last.services), loose);
    }
  }

  lemma CreatedOk(reg: Registry, db: DB, name: string, loose: set<nat>)
    requires DbOk(reg, db, loose) && CreateWorkspace(db, name).error == None
    ensures var t := CreateWorkspace(db, name).db;
      && DbOk(reg, t, loose) && db.nextId !in db.workspaces
      && t == db.(workspaces := db.workspaces[db.nextId := Workspace(name, "", map[])], nextId := db.nextId + 1)
  {
  }

  /** After a successful creation of the profiles the workspace has exactly them. */
  lemma {:induction false} CreatedProfiles(db: DB, id: nat, list: seq<ProfileExport>)
    requires id in db.workspaces && db.workspaces[id].profiles == map[]
    requires CreateProfiles(db, id, list).error == None
    ensures id in CreateProfiles(db, id, list).db.workspaces
    ensures CreateProfiles(db, id, list).db.workspaces[id].profiles.Keys == set p | p in list :: p.name
  {
    if list == [] {
    } else {
      var front, last := list[..|list| - 1], list[|list| - 1];
      CreatedProfiles(db, id, front);
      assert list == front + [last];
    }
  }

  /** The payload's active profile is unset or one of its profiles. */
  predicate ActiveListed(exp: WorkspaceExport) {
    exp.active == "" || exists p :: p in exp.profiles && p.name == exp.active
  }

  /** All workspaces but a new one are as they were. */
  predicate OthersStay(before: DB, after: DB) {
    && (forall id :: id in before.workspaces ==> id in after.workspaces && after.workspaces[id] == before.workspaces[id])
    && after.active == before.active
  }

  /** The new workspace with its profiles, as far as they could be created. */
  lemma FilledOk(reg: Registry, db: DB, exp: WorkspaceExport, name: string, loose: set<nat>)
    requires RegistryOk(reg) && DbOk(reg, db, loose) && CheckProfiles(reg, exp.profiles) == None
    requires CreateWorkspace(db, name).error == None
    ensures var id, r := db.nextId, CreateProfiles(CreateWorkspace(db, name).db, db.nextId, exp.profiles);
      && DbOk(reg, r.db, loose) && id !in db.workspaces && id in r.db.workspaces && OthersStay(db, r.db)
      && r.db.workspaces[id].active == ""
      && (r.error == None ==> r.db.workspaces[id].profiles.Keys == set p | p in exp.profiles :: p.name)
  {
    hide CreateProfiles, CheckProfiles, RegistryOk, DbOk, CreateWorkspace;
    CreatedOk(reg, db, name, loose);
    var created := CreateWorkspace(db, name).db;
    CreateProfilesKeeps(reg, created, db.nextId, exp.profiles, loose);
    if CreateProfiles(created, db.nextId, exp.profiles).error == None {
      CreatedProfiles(created, db.nextId, exp.profiles);
    }
  }

  /** The import gets as far as creating a workspace. */
  predicate Begins(reg: Registry, db: DB, exp: WorkspaceExport) {
    && exp.version == EXPORT_VERSION && CheckProfiles(reg, exp.profiles) == None
    && CreateWorkspace(db, Fresh(Names(db), Parenthesized, exp.name)).error == None
  }

  lemma ImportRefused(reg: Registry, db: DB, exp: WorkspaceExport)
    requires !Begins(reg, db, exp)
    ensures ImportWorkspace(reg, db, exp).error.Some? && ImportWorkspace(reg, db, exp).db == db
  {
  }

  /** The last step of an import. */
  function Activated(filled: Reply, id: nat, exp: WorkspaceExport): Reply {
    if filled.error.Some? || exp.active == "" then filled else SetWorkspaceActiveProfile(filled.db, id, exp.active)
  }

  lemma ImportBegun(reg: Registry, db: DB, exp: WorkspaceExport) returns (filled: Reply)
    requires Begins(reg, db, exp)
    ensures filled == CreateProfiles(CreateWorkspace(db, Fresh(Names(db), Parenthesized, exp.name)).db, db.nextId, exp.profiles)
    ensures ImportWorkspace(reg, db, exp) == Activated(filled, db.nextId, exp)
  {
    filled := CreateProfiles(CreateWorkspace(db, Fresh(Names(db), Parenthesized, exp.name)).db, db.nextId, exp.profiles);
  }

  /** Activating a profile of the new workspace. */
  lemma ActivatedStay(db: DB, filled: Reply, id: nat, exp: WorkspaceExport)
    requires id !in db.workspaces && OthersStay(db, filled.db)
    ensures OthersStay(db, Activated(filled, id, exp).db)
  {
  }

  lemma BegunParts(reg: Registry, db: DB, exp: WorkspaceExport)
    requires Begins(reg, db, exp)
    ensures CheckProfiles(reg, exp.profiles) == None
    ensures CreateWorkspace(db, Fresh(Names(db), Parenthesized, exp.name)).error == None
  {
  }

  lemma LooserOk(reg: Registry, db: DB, loose: set<nat>, id: nat)
    requires DbOk(reg, db, loose) && id in db.workspaces
    ensures DbOk(reg, db, loose + {id})
  {
    forall x | x in db.workspaces ensures WorkspaceOk(reg, db.workspaces[x], x in loose + {id}) {
      assert WorkspaceOk(reg, db.workspaces[x], x in loose);
    }
  }

  lemma NotLoose(reg: Registry, db: DB, id: nat, loose: set<nat>)
    requires id in db.workspaces && id !in loose && !ActiveOk(db.workspaces[id])
    ensures !DbOk(reg, db, loose)
  {
    assert !WorkspaceOk(reg, db.workspaces[id], id in loose);
  }

  lemma ActivatedOk(reg: Registry, filled: Reply, id: nat, exp: WorkspaceExport, loose: set<nat>)
    requires DbOk(reg, filled.db, loose) && id in filled.db.workspaces && id !in loose
    requires filled.error == None ==> filled.db.workspaces[id].profiles.Keys == set p | p in exp.profiles :: p.name
    requires filled.db.workspaces[id].active == ""
    ensures var r := Activated(filled, id, exp);
      && (r.error.Some? ==> DbOk(reg, r.db, loose))
      && (r.error == None ==> DbOk(reg, r.db, loose + {id}) && (DbOk(reg, r.db, loose) <==> ActiveListed(exp)))
  {
    if filled.error == None {
      var db := filled.db;
      LooserOk(reg, db, loose, id);
      if exp.active != "" {
        var w := db.workspaces[id].(active := exp.active);
        assert forall p :: p in w.profiles ==> ServicesOk(reg, w.profiles[p]) by { assert WorkspaceOk(reg, db.workspaces[id], false); }
        hide DbOk, ServicesOk;
        ChangedOk(reg, db, id, w, loose + {id});
        if ActiveListed(exp) {
          ChangedOk(reg, db, id, w, loose);
        } else {
          NotLoose(reg, Activated(filled, id, exp).db, id, loose);
        }
      }
    }
  }

  /** An import that fails keeps the invariants, also where it leaves a partial workspace; one
      that succeeds keeps them exactly when the payload's active profile is among its own
      profiles, and in any case all but that the new workspace's active profile exists. Other
      workspaces stay as they are. */
  lemma ImportKeeps(reg: Registry, db: DB, exp: WorkspaceExport, loose: set<nat>)
    requires RegistryOk(reg) && DbOk(reg, db, loose)
    ensures var r := ImportWorkspace(reg, db, exp);
      && (r.error.Some? ==> DbOk(reg, r.db, loose))
      && (r.error == None ==> DbOk(reg, r.db, loose + {db.nextId}) && (DbOk(reg, r.db, loose) <==> ActiveListed(exp)))
      && OthersStay(db, r.db)
  {
    assert db.nextId !in loose && OthersStay(db, db);
    hide *;
    if Begins(reg, db, exp) {
      var filled := ImportBegun(reg, db, exp);
      BegunParts(reg, db, exp);
      FilledOk(reg, db, exp, Fresh(Names(db), Parenthesized, exp.name), loose);
      ActivatedStay(db, filled, db.nextId, exp);
      ActivatedOk(reg, filled, db.nextId, exp, loose);
    } else {
      ImportRefused(reg, db, exp);
    }
  }

  // ------------------------------------------------------------------------- every run

  /** The requests of the server, one at a time. Creating and importing also activate. */
  datatype Request =
    | NewWorkspace(name: string)
    | Rename(id: nat, name: string)
    | Remove(id: nat)
    | Switch(id: nat)
    | InWorkspace(id: nat, request: ProfileRequest)
    | ImportPayload(exp: WorkspaceExport)

  function Handle(reg: Registry, db: DB, r: Request): Reply {
    match r
    case NewWorkspace(name) =>
      var created := CreateWorkspace(db, name);
      if created.error.Some? then created else ActivateWorkspace(created.db, db.nextId)
    case Rename(id, name) => RenameWorkspace(db, id, name)
    case Remove(id) => RemoveWorkspace(db, id)
    case Switch(id) => ActivateWorkspace(db, id)
    case InWorkspace(id, request) =>
      if id in db.workspaces then HandleProfile(reg, db, id, request) else Reply(db, Some(WorkspaceNotFound))
    case ImportPayload(exp) =>
      var imported := ImportWorkspace(reg, db, exp);
      if imported.error.Some? then imported else ActivateWorkspace(imported.db, db.nextId)
  }

  function HandleAll(reg: Registry, requests: seq<Request>): DB {
    if requests == [] then EMPTY
    else Handle(reg, HandleAll(reg, requests[..|requests| - 1]), requests[|requests| - 1]).db
  }

  lemma SwitchKeeps(reg: Registry, db: DB, id: nat, loose: set<nat>)
    requires DbOk(reg, db, loose)
    ensures DbOk(reg, ActivateWorkspace(db, id).db, loose)
  {
  }

  lemma RemoveKeeps(reg: Registry, db: DB, id: nat, loose: set<nat>)
    requires DbOk(reg, db, loose)
    ensures DbOk(reg, RemoveWorkspace(db, id).db, loose)
  {
  }

  lemma RenameKeeps(reg: Registry, db: DB, id: nat, name: string, loose: set<nat>)
    requires DbOk(reg, db, loose)
    ensures DbOk(reg, RenameWorkspace(db, id, name).db, loose)
  {
  }

  /** The workspaces with a loose active profile after one more request: an import that
      succeeds adds its own if the payload's active profile is not among its profiles. */
  function LooseAfter(reg: Registry, db: DB, r: Request, loose: set<nat>): set<nat> {
    if r.ImportPayload? && !ActiveListed(r.exp) && ImportWorkspace(reg, db, r.exp).error == None then loose + {db.nextId} else loose
  }

  /** Every request keeps the invariants, but for the active profile of such an import. */
  lemma HandleKeeps(reg: Registry, db: DB, r: Request, loose: set<nat>)
    requires RegistryOk(reg) && DbOk(reg, db, loose)
    ensures DbOk(reg, Handle(reg, db, r).db, LooseAfter(reg, db, r, loose))
  {
    hide DbOk;
    match r
    case NewWorkspace(name) =>
      if CreateWorkspace(db, name).error == None {
        CreatedOk(reg, db, name, loose);
        SwitchKeeps(reg, CreateWorkspace(db, name).db, db.nextId, loose);
      }
    case Rename(id, name) => RenameKeeps(reg, db, id, name, loose);
    case Remove(id) => RemoveKeeps(reg, db, id, loose);
    case Switch(id) => SwitchKeeps(reg, db, id, loose);
    case InWorkspace(id, request) => HandleProfileKeeps(reg, db, id, request, loose);
    case ImportPayload(exp) =>
      hide ActiveListed, ImportWorkspace;
      ImportKeeps(reg, db, exp, loose);
      if ImportWorkspace(reg, db, exp).error == None {
        SwitchKeeps(reg, ImportWorkspace(reg, db, exp).db, db.nextId, LooseAfter(reg, db, r, loose));
      }
  }

  /** The workspaces that a run leaves with a loose active profile. */
  function LooseOf(reg: Registry, requests: seq<Request>): set<nat> {
    if requests == [] then {}
    else
      var front := requests[..|requests| - 1];
      LooseAfter(reg, HandleAll(reg, front), requests[|requests| - 1], LooseOf(reg, front))
  }

  /** In every reachable state workspaces have different names, each stored service has a
      registered type and a valid config, the active workspace is unset or exists, and each
      workspace's active profile is unset or its own, except in workspaces made by an import
      whose active profile was not among its profiles; without such imports there is no
      exception. */
  lemma {:induction false} EveryRunKeeps(reg: Registry, requests: seq<Request>)
    requires RegistryOk(reg)
    ensures DbOk(reg, HandleAll(reg, requests), LooseOf(reg, requests))
    ensures (forall i :: 0 <= i < |requests| && requests[i].ImportPayload? ==> ActiveListed(requests[i].exp)) ==> LooseOf(reg, requests) == {}
  {
    hide Handle, ActiveListed;
    if requests == [] {
    } else {
      var front := requests[..|requests| - 1];
      EveryRunKeeps(reg, front);
      hide DbOk;
      HandleKeeps(reg, HandleAll(reg, front), requests[|requests| - 1], LooseOf(reg, front));
      assert (forall i :: 0 <= i < |requests| && requests[i].ImportPayload? ==> ActiveListed(requests[i].exp))
         ==> forall i :: 0 <= i < |front| && front[i].ImportPayload? ==> ActiveListed(front[i].exp);
    }
  }

  // ------------------------------------------------------------------------ round trip

  /** A profile's services with types and names resolved, the id standing for what is not set. */
  function Resolved(services: Services): Services {
    map id | id in services ::
      Entry(if services[id].type_ != "" then services[id].type_ else id,
            if services[id].name != "" then services[id].name else id,
            services[id].config)
  }

  /** No service is without an id but with a name: the import would take the name for the id. */
  predicate Identified(services: Services) {
    "" in services ==> services[""].name == ""
  }

  /** Every stored id is some instance's. */
  lemma {:induction false} ServicesInOnly(list: seq<ServiceExport>, x: string)
    requires forall i :: 0 <= i < |list| ==> ImportId(list[i]) != x
    ensures x !in ServicesIn(list)
  {
    if list == [] {
    } else {
      ServicesInOnly(list[..|list| - 1], x);
    }
  }

  /** The last instance of an id is the one stored. */
  lemma {:induction false} ServicesInAt(list: seq<ServiceExport>, i: nat)
    requires i < |list| && forall j :: i < j < |list| ==> ImportId(list[j]) != ImportId(list[i])
    ensures ImportId(list[i]) in ServicesIn(list) && ServicesIn(list)[ImportId(list[i])] == ServiceIn(list[i])
  {
    if i == |list| - 1 {
    } else {
      ServicesInAt(list[..|list| - 1], i);
    }
  }

  lemma ListedId(services: Services, list: seq<ServiceExport>, id: string) returns (i: nat)
    requires IsServicesExport(services, list) && id in services
    ensures i < |list| && list[i] == ServiceOut(services, id)
  {
    assert id in Ids(list);
    i :| 0 <= i < |list| && Ids(list)[i] == id;
  }

  lemma IdentifiedImportId(services: Services, list: seq<ServiceExport>, i: nat)
    requires IsServicesExport(services, list) && i < |list|
    ensures Identified(services) ==> ImportId(list[i]) == list[i].id
    ensures !Identified(services) ==> ImportId(list[i]) != ""
  {
    assert list[i] == ServiceOut(services, list[i].id);
  }

  lemma ServiceComesBack(services: Services, list: seq<ServiceExport>, x: string)
    requires IsServicesExport(services, list) && Identified(services)
    ensures x in ServicesIn(list) <==> x in services
    ensures x in services ==> x in ServicesIn(list) && ServicesIn(list)[x] == Resolved(services)[x]
  {
    hide ServicesIn, Identified;
    forall i | 0 <= i < |list| ensures ImportId(list[i]) == list[i].id {
      IdentifiedImportId(services, list, i);
    }
    if x in services {
      var i := ListedId(services, list, x);
      forall j | i < j < |list| ensures ImportId(list[j]) != x {
        assert Ids(list)[i] != Ids(list)[j];
      }
      ServicesInAt(list, i);
    } else {
      ServicesInOnly(list, x);
    }
  }

  /** Exported services come back as they were, resolved, exactly when they are identified. */
  lemma ServicesRoundTrip(services: Services, list: seq<ServiceExport>)
    requires IsServicesExport(services, list)
    ensures ServicesIn(list) == Resolved(services) <==> Identified(services)
  {
    hide ServicesIn, IsServicesExport;
    if Identified(services) {
      forall x ensures (x in ServicesIn(list) <==> x in services) && (x in services ==> ServicesIn(list)[x] == Resolved(services)[x]) {
        ServiceComesBack(services, list, x);
      }
    } else {
      forall i | 0 <= i < |list| ensures ImportId(list[i]) != "" {
        IdentifiedImportId(services, list, i);
      }
      ServicesInOnly(list, "");
      assert "" in Resolved(services);
    }
  }

  lemma ExportAcceptable(reg: Registry, services: Services, list: seq<ServiceExport>)
    requires RegistryOk(reg) && ServicesOk(reg, services) && IsServicesExport(services, list)
    ensures CheckServices(reg, list) == None
  {
    CheckServicesAll(reg, list);
    forall i | 0 <= i < |list| ensures CheckService(reg, list[i]) == None {
      assert ServiceOk(reg, list[i].id, services[list[i].id]);
    }
  }

  predicate IsCreated(db: DB, id: nat, p: ProfileExport) {
    HasProfile(db, id, p.name) && ServicesOf(db, id, p.name) == ServicesIn(p.services)
  }

  lemma NotAmong(front: seq<ProfileExport>, last: ProfileExport)
    requires forall i :: 0 <= i < |front| ==> front[i].name != last.name
    ensures last.name !in set p | p in front :: p.name
  {
  }

  /** Distinct profiles are all created. */
  lemma {:induction false} DistinctProfilesCreated(db: DB, id: nat, list: seq<ProfileExport>)
    requires id in db.workspaces && db.workspaces[id].profiles == map[]
    requires forall i, j :: 0 <= i < j < |list| ==> list[i].name != list[j].name
    ensures CreateProfiles(db, id, list).error == None
    ensures forall i :: 0 <= i < |list| ==> IsCreated(CreateProfiles(db, id, list).db, id, list[i])
  {
    hide ServicesIn;
    if list == [] {
    } else {
      var front, last := list[..|list| - 1], list[|list| - 1];
      DistinctProfilesCreated(db, id, front);
      CreatedProfiles(db, id, front);
      var t := CreateProfiles(db, id, front).db;
      assert last.name !in t.workspaces[id].profiles by {
        NotAmong(front, last);
      }
      forall i | 0 <= i < |list| ensures IsCreated(CreateProfiles(db, id, list).db, id, list[i]) {
        if i < |front| {
          assert IsCreated(t, id, front[i]);
        }
      }
    }
  }

  lemma FreshIsNamed(db: DB, base: string, name: string)
    requires !Blank(base) && IsFresh(Names(db), Parenthesized, base, name)
    ensures CreateWorkspace(db, name).error == None
  {
    var a, b := TrimSpaceSplits(name);
    if name != base {
      var n :| 2 <= n && name == Candidate(Parenthesized, base, n);
      assert name[|name| - 1] == ')';
    }
  }

  /** The profiles of an export, created in the workspace made for them. */
  lemma FilledFromExport(reg: Registry, db: DB, w: Workspace, exp: WorkspaceExport, name: string, loose: set<nat>)
    requires RegistryOk(reg) && DbOk(reg, db, loose) && IsExport(w, exp) && CheckProfiles(reg, exp.profiles) == None
    requires CreateWorkspace(db, name).error == None
    ensures var id, r := db.nextId, CreateProfiles(CreateWorkspace(db, name).db, db.nextId, exp.profiles);
      && r.error == None && id !in db.workspaces && id in r.db.workspaces
      && r.db == db.(workspaces := db.workspaces[id := Workspace(name, "", r.db.workspaces[id].profiles)], nextId := id + 1)
      && (r.db.workspaces[id].profiles.Keys == set p | p in exp.profiles :: p.name)
      && forall i :: 0 <= i < |exp.profiles| ==> IsCreated(r.db, id, exp.profiles[i])
  {
    hide DbOk, IsServicesExport, CreateProfiles, ServicesIn, CreateWorkspace, CheckProfiles, RegistryOk;
    CreatedOk(reg, db, name, loose);
    var created := CreateWorkspace(db, name).db;
    forall i, j | 0 <= i < j < |exp.profiles| ensures exp.profiles[i].name != exp.profiles[j].name {
      assert ProfileNames(exp.profiles)[i] != ProfileNames(exp.profiles)[j];
    }
    DistinctProfilesCreated(created, db.nextId, exp.profiles);
    CreatedProfiles(created, db.nextId, exp.profiles);
    CreateProfilesKeeps(reg, created, db.nextId, exp.profiles, loose);
  }

  /** An export passes the import's checks exactly when every profile has a name. */
  lemma ExportChecks(reg: Registry, db: DB, id: nat, exp: WorkspaceExport, loose: set<nat>)
    requires RegistryOk(reg) && DbOk(reg, db, loose) && id in db.workspaces && IsExport(db.workspaces[id], exp)
    ensures CheckProfiles(reg, exp.profiles) == None <==> "" !in db.workspaces[id].profiles
  {
    var w := db.workspaces[id];
    CheckProfilesAll(reg, exp.profiles);
    forall i | 0 <= i < |exp.profiles| ensures Acceptable(reg, exp.profiles[i]) <==> exp.profiles[i].name != "" {
      ExportAcceptable(reg, w.profiles[exp.profiles[i].name], exp.profiles[i].services);
    }
    if "" in w.profiles {
      assert "" in ProfileNames(exp.profiles);
      var i :| 0 <= i < |exp.profiles| && ProfileNames(exp.profiles)[i] == "";
      assert !Acceptable(reg, exp.profiles[i]);
    } else {
      forall i | 0 <= i < |exp.profiles| ensures exp.profiles[i].name != "" {
        assert exp.profiles[i].name in w.profiles;
      }
    }
  }

  lemma NotBlank(reg: Registry, db: DB, id: nat, loose: set<nat>)
    requires DbOk(reg, db, loose) && id in db.workspaces
    ensures !Blank(db.workspaces[id].name) && id < db.nextId
  {
  }

  /** What importing an export of named profiles comes to. */
  lemma ImportOfExport(reg: Registry, db: DB, id: nat, exp: WorkspaceExport, loose: set<nat>) returns (t: DB)
    requires RegistryOk(reg) && DbOk(reg, db, loose) && id in db.workspaces && IsExport(db.workspaces[id], exp)
    requires "" !in db.workspaces[id].profiles
    ensures ImportWorkspace(reg, db, exp) == Reply(t, None) && db.nextId !in db.workspaces && db.nextId in t.workspaces
    ensures t == db.(workspaces := db.workspaces[db.nextId := t.workspaces[db.nextId]], nextId := db.nextId + 1)
    ensures t.workspaces[db.nextId].name == Fresh(Names(db), Parenthesized, exp.name) && t.workspaces[db.nextId].active == exp.active
    ensures t.workspaces[db.nextId].profiles.Keys == set p | p in exp.profiles :: p.name
    ensures forall i :: 0 <= i < |exp.profiles| ==> IsCreated(t, db.nextId, exp.profiles[i])
  {
    hide DbOk, IsServicesExport, CreateProfiles, ServicesIn, Fresh, RegistryOk, Blank, CheckProfiles, CreateWorkspace;
    ExportChecks(reg, db, id, exp, loose);
    NotBlank(reg, db, id, loose);
    var name := Fresh(Names(db), Parenthesized, exp.name);
    FreshIsNamed(db, exp.name, name);
    FilledFromExport(reg, db, db.workspaces[id], exp, name, loose);
    var filled := CreateProfiles(CreateWorkspace(db, name).db, db.nextId, exp.profiles).db;
    t := ImportWorkspace(reg, db, exp).db;
    assert t.workspaces == filled.workspaces[db.nextId := filled.workspaces[db.nextId].(active := exp.active)];
    forall i | 0 <= i < |exp.profiles| ensures IsCreated(t, db.nextId, exp.profiles[i]) {
      assert IsCreated(filled, db.nextId, exp.profiles[i]);
    }
  }

  /** Exporting a workspace and importing the result into the same store is accepted exactly
      when every profile has a name. */
  lemma RoundTripAccepted(reg: Registry, db: DB, id: nat, exp: WorkspaceExport, loose: set<nat>)
    requires RegistryOk(reg) && DbOk(reg, db, loose) && id in db.workspaces && IsExport(db.workspaces[id], exp)
    ensures ImportWorkspace(reg, db, exp).error == None <==> "" !in db.workspaces[id].profiles
  {
    ExportChecks(reg, db, id, exp, loose);
    if "" !in db.workspaces[id].profiles {
      var t := ImportOfExport(reg, db, id, exp, loose);
    }
  }

  lemma NamesAreKeys(w: Workspace, exp: WorkspaceExport, p: string)
    requires IsExport(w, exp)
    ensures p in (set q | q in exp.profiles :: q.name) <==> p in w.profiles
  {
    if p in w.profiles {
      assert p in ProfileNames(exp.profiles);
      var i :| 0 <= i < |exp.profiles| && ProfileNames(exp.profiles)[i] == p;
      assert exp.profiles[i] in exp.profiles;
    }
    if q :| q in exp.profiles && q.name == p {
      var i :| 0 <= i < |exp.profiles| && exp.profiles[i] == q;
      assert exp.profiles[i].name in w.profiles;
    }
  }

  /** It then creates one more workspace, with a name not taken before, the same active profile
      and the same profile names, and leaves all others as they are; its services are the
      exported ones, resolved, exactly when each is identified. */
  lemma RoundTrip(reg: Registry, db: DB, id: nat, exp: WorkspaceExport, loose: set<nat>)
    requires RegistryOk(reg) && DbOk(reg, db, loose) && id in db.workspaces && IsExport(db.workspaces[id], exp)
    requires "" !in db.workspaces[id].profiles
    ensures var t := ImportWorkspace(reg, db, exp).db;
      db.nextId !in db.workspaces && db.nextId in t.workspaces && t.workspaces - {db.nextId} == db.workspaces && t.active == db.active
    ensures var w, copy := db.workspaces[id], ImportWorkspace(reg, db, exp).db.workspaces[db.nextId];
      && copy.name !in Names(db) && copy.active == w.active && copy.profiles.Keys == w.profiles.Keys
      && forall p :: p in w.profiles ==> (copy.profiles[p] == Resolved(w.profiles[p]) <==> Identified(w.profiles[p]))
  {
    hide DbOk, ImportWorkspace, IsServicesExport, ServicesIn, RegistryOk, Identified, Resolved;
    var w := db.workspaces[id];
    var t := ImportOfExport(reg, db, id, exp, loose);
    var copy := t.workspaces[db.nextId];
    forall p ensures p in copy.profiles <==> p in w.profiles {
      NamesAreKeys(w, exp, p);
    }
    forall p | p in w.profiles ensures copy.profiles[p] == Resolved(w.profiles[p]) <==> Identified(w.profiles[p]) {
      assert p in ProfileNames(exp.profiles);
      var i :| 0 <= i < |exp.profiles| && ProfileNames(exp.profiles)[i] == p;
      assert IsCreated(t, db.nextId, exp.profiles[i]);
      ServicesRoundTrip(w.profiles[p], exp.profiles[i].services);
    }
  }
}
