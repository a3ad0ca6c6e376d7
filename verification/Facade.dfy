/** The facade over the store: what each request does, and the invariants that all of them
    keep (internal/project/project.go, internal/project/service.go). */
module Facade {
  import opened Text
  import opened WorkspaceStore
  import opened FreshNames

  const LOCAL_PROFILE := "local"

  function ServicesOf(db: DB, w: nat, name: string): Services
    requires HasProfile(db, w, name)
  {
    db.workspaces[w].profiles[name]
  }

  // ------------------------------------------------------------ what the requests do

  /** `LoadProfile`: the profile exists and is valid. */
  function LoadError(reg: Registry, db: DB, w: nat, name: string): Option<Error> {
    if !HasProfile(db, w, name) then Some(ProfileNotFound)
    else if !ValidProfile(reg, ServicesOf(db, w, name)) then Some(InvalidProfile)
    else None
  }

  function SetActiveProfile(reg: Registry, db: DB, w: nat, name: string): Reply {
    if LoadError(reg, db, w, name).Some? then Reply(db, LoadError(reg, db, w, name))
    else SetWorkspaceActiveProfile(db, w, name)
  }

  function UpdateProfile(reg: Registry, db: DB, w: nat, name: string, services: Services): Reply {
    if !HasProfile(db, w, name) then Reply(db, Some(ProfileNotFound))
    else if !ValidProfile(reg, services) then Reply(db, Some(InvalidProfile))
    else ReplaceProfileServices(db, w, name, services)
  }

  function AddProfile(db: DB, w: nat, name: string): Reply {
    CreateProfile(db, w, name, map[])
  }

  /** The services of the local profile after forking one service into it. */
  function Forked(db: DB, w: nat, source: string, svc: string, localEnv: Config): Services
    requires HasProfile(db, w, source) && svc in ServicesOf(db, w, source)
  {
    var e := ServicesOf(db, w, source)[svc];
    var existing := if HasProfile(db, w, LOCAL_PROFILE) then ServicesOf(db, w, LOCAL_PROFILE) else map[];
    existing[svc := Entry(e.type_, e.name, e.config + localEnv)]
  }

  function ForkLocalProfile(reg: Registry, db: DB, w: nat, source: string, svc: string, localEnv: Config): Reply {
    if LoadError(reg, db, w, source).Some? then Reply(db, LoadError(reg, db, w, source))
    else if svc !in ServicesOf(db, w, source) then Reply(db, Some(ServiceNotDefined))
    else
      var services := Forked(db, w, source, svc, localEnv);
      if !ValidProfile(reg, services) then Reply(db, Some(InvalidProfile))
      else Reply(PutProfile(db, w, LOCAL_PROFILE, services), None)
  }

  function DropProfile(db: DB, w: nat, name: string): Reply {
    if w in db.workspaces && db.workspaces[w].active == name then Reply(db, Some(ActiveProfileInUse))
    else RemoveProfile(db, w, name)
  }

  function AddProfileService(reg: Registry, db: DB, w: nat, profile: string, t: string, name: string, cfg: Option<Config>): Reply {
    if t !in reg.types then Reply(db, Some(UnknownService))
    else if !HasProfile(db, w, profile) then Reply(db, Some(ProfileNotFound))
    else if cfg.Some? && !reg.valid(t, cfg.value) then Reply(db, Some(InvalidConfig))
    else
      var services := ServicesOf(db, w, profile);
      var id := Fresh(services.Keys, Dashed, t);
      var e := Entry(t, if name == "" then id else name, if cfg.Some? then cfg.value else reg.defaults(t));
      ReplaceProfileServices(db, w, profile, services[id := e])
  }

  function UpdateProfileService(reg: Registry, db: DB, w: nat, profile: string, id: string, name: string, cfg: Config): Reply {
    if !HasProfile(db, w, profile) then Reply(db, Some(ProfileNotFound))
    else
      var services := ServicesOf(db, w, profile);
      if id !in services then Reply(db, Some(ServiceNotDefined))
      else
        var t := ResolveType(services[id], id);
        if t !in reg.types then Reply(db, Some(UnknownService))
        else if !reg.valid(t, cfg) then Reply(db, Some(InvalidConfig))
        else
          var e := Entry(t, if name != "" then name else ResolveName(services[id], id), cfg);
          ReplaceProfileServices(db, w, profile, services[id := e])
  }

  function RemoveProfileService(db: DB, w: nat, profile: string, id: string): Reply {
    if !HasProfile(db, w, profile) then Reply(db, Some(ProfileNotFound))
    else
      var services := ServicesOf(db, w, profile);
      if id !in services then Reply(db, Some(ServiceNotDefined))
      else if |services| == 1 then Reply(db, Some(LastService))
      else ReplaceProfileServices(db, w, profile, services - {id})
  }

  // ------------------------------------------------------------------------ invariants

  /** The active profile is unset or one of the workspace's. */
  predicate ActiveOk(w: Workspace) {
    w.active == "" || w.active in w.profiles
  }

  /** Every stored service has a known type and a valid config, and the active profile is as it
      should be, unless that may be `loose`. */
  ghost predicate WorkspaceOk(reg: Registry, w: Workspace, loose: bool) {
    && (loose || ActiveOk(w))
    && (forall p :: p in w.profiles ==> ServicesOk(reg, w.profiles[p]))
  }

  /** Workspaces have different names that are not blank, and are in order; the active one is
      unset or exists. Those in `loose` may have an active profile that does not exist. */
  ghost predicate DbOk(reg: Registry, db: DB, loose: set<nat>) {
    && (forall id :: id in db.workspaces ==>
          WorkspaceOk(reg, db.workspaces[id], id in loose) && id < db.nextId && !Blank(db.workspaces[id].name))
    && (forall id :: id in loose ==> id < db.nextId)
    && (forall a, b :: a in db.workspaces && b in db.workspaces && db.workspaces[a].name == db.workspaces[b].name ==> a == b)
    && (db.active.Some? ==> db.active.value in db.workspaces)
  }

  /** Changing one workspace but for its name. */
  lemma ChangedOk(reg: Registry, db: DB, id: nat, w: Workspace, loose: set<nat>)
    requires DbOk(reg, db, loose) && id in db.workspaces && w.name == db.workspaces[id].name && WorkspaceOk(reg, w, id in loose)
    ensures DbOk(reg, db.(workspaces := db.workspaces[id := w]), loose)
  {
  }

  lemma PutProfileOk(reg: Registry, db: DB, id: nat, name: string, services: Services, loose: set<nat>)
    requires DbOk(reg, db, loose) && id in db.workspaces && ServicesOk(reg, services)
    ensures DbOk(reg, PutProfile(db, id, name, services), loose)
  {
    var w := db.workspaces[id];
    ChangedOk(reg, db, id, w.(profiles := w.profiles[name := services]), loose);
  }

  /** A request about one workspace. */
  datatype ProfileRequest =
    | Activate(name: string)
    | Update(name: string, services: Services)
    | Add(name: string)
    | ForkInto(source: string, svc: string, localEnv: Config)
    | Drop(name: string)
    | AddService(profile: string, type_: string, title: string, cfg: Option<Config>)
    | UpdateService(profile: string, id: string, title: string, config: Config)
    | RemoveService(profile: string, id: string)

  function HandleProfile(reg: Registry, db: DB, w: nat, r: ProfileRequest): Reply {
    match r
    case Activate(name) => SetActiveProfile(reg, db, w, name)
    case Update(name, services) => UpdateProfile(reg, db, w, name, services)
    case Add(name) => AddProfile(db, w, name)
    case ForkInto(source, svc, localEnv) => ForkLocalProfile(reg, db, w, source, svc, localEnv)
    case Drop(name) => DropProfile(db, w, name)
    case AddService(profile, t, title, cfg) => AddProfileService(reg, db, w, profile, t, title, cfg)
    case UpdateService(profile, id, title, cfg) => UpdateProfileService(reg, db, w, profile, id, title, cfg)
    case RemoveService(profile, id) => RemoveProfileService(db, w, profile, id)
  }

  /** All workspaces but one are as they were. */
  predicate OthersKept(before: DB, after: DB, w: nat) {
    forall id :: id in before.workspaces && id != w ==> id in after.workspaces && after.workspaces[id] == before.workspaces[id]
  }

  lemma ActivateKeeps(reg: Registry, db: DB, w: nat, name: string, loose: set<nat>)
    requires DbOk(reg, db, loose)
    ensures DbOk(reg, SetActiveProfile(reg, db, w, name).db, loose)
  {
    if HasProfile(db, w, name) {
      ChangedOk(reg, db, w, db.workspaces[w].(active := name), loose);
    }
  }

  lemma DropKeeps(reg: Registry, db: DB, w: nat, name: string, loose: set<nat>)
    requires DbOk(reg, db, loose)
    ensures DbOk(reg, DropProfile(db, w, name).db, loose)
  {
    if HasProfile(db, w, name) && db.workspaces[w].active != name {
      ChangedOk(reg, db, w, db.workspaces[w].(profiles := db.workspaces[w].profiles - {name}), loose);
    }
  }

  lemma AddServiceKeeps(reg: Registry, db: DB, w: nat, profile: string, t: string, title: string, cfg: Option<Config>, loose: set<nat>)
    requires RegistryOk(reg) && DbOk(reg, db, loose)
    ensures DbOk(reg, AddProfileService(reg, db, w, profile, t, title, cfg).db, loose)
  {
    if t in reg.types && HasProfile(db, w, profile) {
      var services := ServicesOf(db, w, profile);
      assert ServicesOk(reg, services);
      var id := Fresh(services.Keys, Dashed, t);
      var e := Entry(t, if title == "" then id else title, if cfg.Some? then cfg.value else reg.defaults(t));
      if cfg == None || reg.valid(t, cfg.value) {
        assert ServiceOk(reg, id, e);
        PutProfileOk(reg, db, w, profile, services[id := e], loose);
      }
    }
  }

  lemma UpdateServiceKeeps(reg: Registry, db: DB, w: nat, profile: string, id: string, title: string, cfg: Config, loose: set<nat>)
    requires RegistryOk(reg) && DbOk(reg, db, loose)
    ensures DbOk(reg, UpdateProfileService(reg, db, w, profile, id, title, cfg).db, loose)
  {
    if HasProfile(db, w, profile) && id in ServicesOf(db, w, profile) {
      var services := ServicesOf(db, w, profile);
      assert ServicesOk(reg, services);
      var t := ResolveType(services[id], id);
      if reg.valid(t, cfg) {
        var e := Entry(t, if title != "" then title else ResolveName(services[id], id), cfg);
        assert ServiceOk(reg, id, services[id]) && ServiceOk(reg, id, e);
        PutProfileOk(reg, db, w, profile, services[id := e], loose);
      }
    }
  }

  lemma RemoveServiceKeeps(reg: Registry, db: DB, w: nat, profile: string, id: string, loose: set<nat>)
    requires DbOk(reg, db, loose)
    ensures DbOk(reg, RemoveProfileService(db, w, profile, id).db, loose)
  {
    if HasProfile(db, w, profile) {
      var services := ServicesOf(db, w, profile);
      assert ServicesOk(reg, services);
      assert ServicesOk(reg, services - {id});
      PutProfileOk(reg, db, w, profile, services - {id}, loose);
    }
  }

  /** No request about a workspace breaks the invariants, and one that fails changes nothing. */
  lemma HandleProfileKeeps(reg: Registry, db: DB, w: nat, r: ProfileRequest, loose: set<nat>)
    requires RegistryOk(reg) && DbOk(reg, db, loose)
    ensures DbOk(reg, HandleProfile(reg, db, w, r).db, loose)
    ensures HandleProfile(reg, db, w, r).error.Some? ==> HandleProfile(reg, db, w, r).db == db
    ensures OthersKept(db, HandleProfile(reg, db, w, r).db, w)
  {
    hide DbOk;
    match r
    case Activate(name) => ActivateKeeps(reg, db, w, name, loose);
    case Update(name, services) =>
      if HasProfile(db, w, name) && ServicesOk(reg, services) {
        PutProfileOk(reg, db, w, name, services, loose);
      }
    case Add(name) =>
      if w in db.workspaces {
        PutProfileOk(reg, db, w, name, map[], loose);
      }
    case ForkInto(source, svc, localEnv) =>
      if HasProfile(db, w, source) && svc in ServicesOf(db, w, source) && ServicesOk(reg, Forked(db, w, source, svc, localEnv)) {
        PutProfileOk(reg, db, w, LOCAL_PROFILE, Forked(db, w, source, svc, localEnv), loose);
      }
    case Drop(name) => DropKeeps(reg, db, w, name, loose);
    case AddService(profile, t, title, cfg) => AddServiceKeeps(reg, db, w, profile, t, title, cfg, loose);
    case UpdateService(profile, id, title, cfg) => UpdateServiceKeeps(reg, db, w, profile, id, title, cfg, loose);
    case RemoveService(profile, id) => RemoveServiceKeeps(reg, db, w, profile, id, loose);
  }

  // --------------------------------------------------------------------- the facade

  /** A workspace opened for one request, with its active profile as it was read. */
  class Project {
    const store: Store
    const reg: Registry
    const id: nat
    var active: string

    constructor (store: Store, reg: Registry, id: nat)
      requires id in store.workspaces
      ensures this.store == store && this.reg == reg && this.id == id && active == store.workspaces[id].active
    {
      this.store := store;
      this.reg := reg;
      this.id := id;
      active := store.workspaces[id].active;
    }

    method LoadProfile(name: string) returns (services: Services, error: Option<Error>)
      ensures error == LoadError(reg, store.Db(), id, name)
      ensures error == None ==> services == ServicesOf(store.Db(), id, name)
    {
      services := map[];
      if !HasProfile(store.Db(), id, name) {
        return services, Some(ProfileNotFound);
      }
      services := store.workspaces[id].profiles[name];
      error := if ValidProfile(reg, services) then None else Some(InvalidProfile);
    }

    method SetActive(name: string) returns (error: Option<Error>)
      modifies this, store
      ensures Reply(store.Db(), error) == SetActiveProfile(reg, old(store.Db()), id, name)
      ensures active == if error == None then name else old(active)
    {
      var services;
      services, error := LoadProfile(name);
      if error == None {
        error := store.SetActiveProfile(id, name);
      }
      if error == None {
        active := name;
      }
    }

    method UpdateServices(name: string, services: Services) returns (error: Option<Error>)
      modifies store
      ensures Reply(store.Db(), error) == UpdateProfile(reg, old(store.Db()), id, name, services)
    {
      if !HasProfile(store.Db(), id, name) {
        return Some(ProfileNotFound);
      }
      if !ValidProfile(reg, services) {
        return Some(InvalidProfile);
      }
      error := store.ReplaceServices(id, name, services);
    }

    method AddEmpty(name: string) returns (error: Option<Error>)
      requires id in store.workspaces
      modifies store
      ensures Reply(store.Db(), error) == AddProfile(old(store.Db()), id, name)
    {
      if HasProfile(store.Db(), id, name) {
        return Some(ProfileExists);
      }
      error := store.NewProfile(id, name, map[]);
    }

    /** Copies one config over another, key by key. */
    method Overlay(under: Config, over: Config) returns (merged: Config)
      ensures merged == under + over
    {
      merged := under;
      var todo := over.Keys;
      while todo != {}
        invariant todo <= over.Keys
        invariant merged == under + map k | k in over && k !in todo :: over[k]
        decreases todo
      {
        var k :| k in todo;
        merged := merged[k := over[k]];
        todo := todo - {k};
      }
    }

    method ForkLocal(source: string, svc: string, localEnv: Config) returns (error: Option<Error>)
      modifies store
      ensures Reply(store.Db(), error) == ForkLocalProfile(reg, old(store.Db()), id, source, svc, localEnv)
    {
      var src;
      src, error := LoadProfile(source);
      if error.Some? {
        return;
      }
      if svc !in src {
        return Some(ServiceNotDefined);
      }
      var services: Services := map[];
      var localExists := HasProfile(store.Db(), id, LOCAL_PROFILE);
      if localExists {
        services := store.workspaces[id].profiles[LOCAL_PROFILE];
      }
      var forked := Overlay(src[svc].config, localEnv);
      services := services[svc := Entry(src[svc].type_, src[svc].name, forked)];
      if !ValidProfile(reg, services) {
        return Some(InvalidProfile);
      }
      if localExists {
        error := store.ReplaceServices(id, LOCAL_PROFILE, services);
      } else {
        error := store.NewProfile(id, LOCAL_PROFILE, services);
      }
    }

    method Remove(name: string) returns (error: Option<Error>)
      requires id in store.workspaces && active == store.workspaces[id].active
      modifies store
      ensures Reply(store.Db(), error) == DropProfile(old(store.Db()), id, name)
    {
      if active == name {
        return Some(ActiveProfileInUse);
      }
      error := store.DropProfile(id, name);
    }

    method NewService(profile: string, t: string, name: string, cfg: Option<Config>) returns (newId: string, error: Option<Error>)
      modifies store
      ensures Reply(store.Db(), error) == AddProfileService(reg, old(store.Db()), id, profile, t, name, cfg)
      ensures error == None ==> HasProfile(old(store.Db()), id, profile)
      ensures error == None ==> newId == Fresh(ServicesOf(old(store.Db()), id, profile).Keys, Dashed, t)
    {
      newId := "";
      if t !in reg.types {
        return newId, Some(UnknownService);
      }
      if !HasProfile(store.Db(), id, profile) {
        return newId, Some(ProfileNotFound);
      }
      if cfg.Some? && !reg.valid(t, cfg.value) {
        return newId, Some(InvalidConfig);
      }
      var services := store.workspaces[id].profiles[profile];
      newId := FindFresh(services.Keys, Dashed, t);
      var title := if name == "" then newId else name;
      services := services[newId := Entry(t, title, if cfg.Some? then cfg.value else reg.defaults(t))];
      error := store.ReplaceServices(id, profile, services);
    }

    method SetService(profile: string, svc: string, name: string, cfg: Config) returns (error: Option<Error>)
      modifies store
      ensures Reply(store.Db(), error) == UpdateProfileService(reg, old(store.Db()), id, profile, svc, name, cfg)
    {
      if !HasProfile(store.Db(), id, profile) {
        return Some(ProfileNotFound);
      }
      var services := store.workspaces[id].profiles[profile];
      if svc !in services {
        return Some(ServiceNotDefined);
      }
      var entry := services[svc];
      var t := ResolveType(entry, svc);
      if t !in reg.types {
        return Some(UnknownService);
      }
      if !reg.valid(t, cfg) {
        return Some(InvalidConfig);
      }
      entry := entry.(type_ := t, config := cfg, name := if name != "" then name else ResolveName(entry, svc));
      error := store.ReplaceServices(id, profile, services[svc := entry]);
    }

    method DropService(profile: string, svc: string) returns (error: Option<Error>)
      modifies store
      ensures Reply(store.Db(), error) == RemoveProfileService(old(store.Db()), id, profile, svc)
    {
      if !HasProfile(store.Db(), id, profile) {
        return Some(ProfileNotFound);
      }
      var services := store.workspaces[id].profiles[profile];
      if svc !in services {
        return Some(ServiceNotDefined);
      }
      if |services| == 1 {
        return Some(LastService);
      }
      error := store.ReplaceServices(id, profile, services - {svc});
    }
  }
}
