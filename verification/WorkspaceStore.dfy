/** Workspaces, their profiles and services (internal/store/store.go, internal/profile/
    profile.go). The tables are maps; a deleted workspace takes its profiles and services with
    it and clears the active pointer. */
module WorkspaceStore {
  import opened Text

  type Config = map<string, string>

  // ------------------------------------------------------------------------- profiles

  datatype Entry = Entry(type_: string, name: string, config: Config)

  type Services = map<string, Entry>

  function ResolveType(e: Entry, id: string): string {
    if e.type_ != "" then e.type_ else id
  }

  function ResolveName(e: Entry, id: string): string {
    if e.name != "" then e.name else id
  }

  /** The service types known, when a config is valid for one, and its default config. */
  datatype Registry = Registry(types: set<string>, valid: (string, Config) -> bool, defaults: string -> Config)

  /** Types are named, and defaults are valid. */
  predicate RegistryOk(reg: Registry) {
    "" !in reg.types && forall t :: t in reg.types ==> reg.valid(t, reg.defaults(t))
  }

  predicate ServiceOk(reg: Registry, id: string, e: Entry) {
    ResolveType(e, id) in reg.types && reg.valid(ResolveType(e, id), e.config)
  }

  predicate ServicesOk(reg: Registry, services: Services) {
    forall id :: id in services ==> ServiceOk(reg, id, services[id])
  }

  /** `Profile.Validate`. */
  predicate ValidProfile(reg: Registry, services: Services) {
    services.Keys != {} && ServicesOk(reg, services)
  }

  // --------------------------------------------------------------------------- tables

  datatype Workspace = Workspace(name: string, active: string, profiles: map<string, Services>)

  datatype DB = DB(workspaces: map<nat, Workspace>, nextId: nat, active: Option<nat>)

  const EMPTY := DB(map[], 1, None)

  datatype Error =
    | NameRequired | WorkspaceExists | WorkspaceNotFound | ProfileExists | ProfileNotFound
    | ActiveProfileInUse | InvalidProfile | ServiceNotDefined | UnknownService | LastService
    | InvalidConfig | UnsupportedVersion | UnnamedProfile

  /** The tables after a request, and how it went. */
  datatype Reply = Reply(db: DB, error: Option<Error>)

  predicate Blank(name: string) {
    TrimSpace(name) == ""
  }

  function Names(db: DB): set<string> {
    set id | id in db.workspaces :: db.workspaces[id].name
  }

  /** Some workspace but `except` has the name. */
  predicate NameTaken(db: DB, name: string, except: Option<nat>) {
    exists id :: id in db.workspaces && Some(id) != except && db.workspaces[id].name == name
  }

  function CreateWorkspace(db: DB, name: string): Reply {
    if Blank(name) then Reply(db, Some(NameRequired))
    else if NameTaken(db, name, None) then Reply(db, Some(WorkspaceExists))
    else Reply(db.(workspaces := db.workspaces[db.nextId := Workspace(name, "", map[])], nextId := db.nextId + 1), None)
  }

  function RenameWorkspace(db: DB, id: nat, name: string): Reply {
    if Blank(name) then Reply(db, Some(NameRequired))
    else if id !in db.workspaces then Reply(db, Some(WorkspaceNotFound))
    else if NameTaken(db, name, Some(id)) then Reply(db, Some(WorkspaceExists))
    else Reply(db.(workspaces := db.workspaces[id := db.workspaces[id].(name := name)]), None)
  }

  function RemoveWorkspace(db: DB, id: nat): Reply {
    if id !in db.workspaces then Reply(db, Some(WorkspaceNotFound))
    else Reply(db.(workspaces := db.workspaces - {id}, active := if db.active == Some(id) then None else db.active), None)
  }

  function ActivateWorkspace(db: DB, id: nat): Reply {
    if id !in db.workspaces then Reply(db, Some(WorkspaceNotFound)) else Reply(db.(active := Some(id)), None)
  }

  /** Does not look whether the profile exists. */
  function SetWorkspaceActiveProfile(db: DB, id: nat, name: string): Reply {
    if id !in db.workspaces then Reply(db, Some(WorkspaceNotFound))
    else Reply(db.(workspaces := db.workspaces[id := db.workspaces[id].(active := name)]), None)
  }

  function HasProfile(db: DB, id: nat, name: string): bool {
    id in db.workspaces && name in db.workspaces[id].profiles
  }

  function PutProfile(db: DB, id: nat, name: string, services: Services): DB
    requires id in db.workspaces
  {
    db.(workspaces := db.workspaces[id := db.workspaces[id].(profiles := db.workspaces[id].profiles[name := services])])
  }

  function CreateProfile(db: DB, id: nat, name: string, services: Services): Reply {
    if id !in db.workspaces then Reply(db, Some(WorkspaceNotFound))
    else if HasProfile(db, id, name) then Reply(db, Some(ProfileExists))
    else Reply(PutProfile(db, id, name, services), None)
  }

  function ReplaceProfileServices(db: DB, id: nat, name: string, services: Services): Reply {
    if !HasProfile(db, id, name) then Reply(db, Some(ProfileNotFound))
    else Reply(PutProfile(db, id, name, services), None)
  }

  function RemoveProfile(db: DB, id: nat, name: string): Reply {
    if !HasProfile(db, id, name) then Reply(db, Some(ProfileNotFound))
    else Reply(db.(workspaces := db.workspaces[id := db.workspaces[id].(profiles := db.workspaces[id].profiles - {name})]), None)
  }

  // -------------------------------------------------------------------------- the store

  class Store {
    var workspaces: map<nat, Workspace>
    var nextId: nat
    var active: Option<nat>

    function Db(): DB
      reads this
    {
      DB(workspaces, nextId, active)
    }

    constructor ()
      ensures Db() == EMPTY
    {
      workspaces, nextId, active := map[], 1, None;
    }

    /** Inserts a row, unless its name breaks the unique index. */
    method Create(name: string) returns (id: nat, error: Option<Error>)
      modifies this
      ensures Reply(Db(), error) == CreateWorkspace(old(Db()), name)
      ensures error == None ==> id == old(nextId)
    {
      id := nextId;
      if Blank(name) {
        return id, Some(NameRequired);
      }
      if NameTaken(Db(), name, None) {
        return id, Some(WorkspaceExists);
      }
      workspaces := workspaces[nextId := Workspace(name, "", map[])];
      nextId := nextId + 1;
      error := None;
    }

    method Rename(id: nat, name: string) returns (error: Option<Error>)
      modifies this
      ensures Reply(Db(), error) == RenameWorkspace(old(Db()), id, name)
    {
      if Blank(name) {
        return Some(NameRequired);
      }
      if id !in workspaces {
        return Some(WorkspaceNotFound);
      }
      if NameTaken(Db(), name, Some(id)) {
        return Some(WorkspaceExists);
      }
      workspaces := workspaces[id := workspaces[id].(name := name)];
      error := None;
    }

    /** Cascades to the profiles and services, and clears the active pointer. */
    method Remove(id: nat) returns (error: Option<Error>)
      modifies this
      ensures Reply(Db(), error) == RemoveWorkspace(old(Db()), id)
    {
      if id !in workspaces {
        return Some(WorkspaceNotFound);
      }
      workspaces := workspaces - {id};
      if active == Some(id) {
        active := None;
      }
      error := None;
    }

    method Activate(id: nat) returns (error: Option<Error>)
      modifies this
      ensures Reply(Db(), error) == ActivateWorkspace(old(Db()), id)
    {
      if id !in workspaces {
        return Some(WorkspaceNotFound);
      }
      active := Some(id);
      error := None;
    }

    method SetActiveProfile(id: nat, name: string) returns (error: Option<Error>)
      modifies this
      ensures Reply(Db(), error) == SetWorkspaceActiveProfile(old(Db()), id, name)
    {
      if id !in workspaces {
        return Some(WorkspaceNotFound);
      }
      workspaces := workspaces[id := workspaces[id].(active := name)];
      error := None;
    }

    /** The names of all workspaces. */
    method ListNames() returns (names: set<string>)
      ensures names == Names(Db())
    {
      names := {};
      var todo := workspaces.Keys;
      while todo != {}
        invariant todo <= workspaces.Keys
        invariant names == set id | id in workspaces && id !in todo :: workspaces[id].name
        decreases todo
      {
        var id :| id in todo;
        names := names + {workspaces[id].name};
        todo := todo - {id};
      }
    }

    method NewProfile(id: nat, name: string, services: Services) returns (error: Option<Error>)
      modifies this
      ensures Reply(Db(), error) == CreateProfile(old(Db()), id, name, services)
    {
      if id !in workspaces {
        return Some(WorkspaceNotFound);
      }
      if name in workspaces[id].profiles {
        return Some(ProfileExists);
      }
      workspaces := workspaces[id := workspaces[id].(profiles := workspaces[id].profiles[name := services])];
      error := None;
    }

    method ReplaceServices(id: nat, name: string, services: Services) returns (error: Option<Error>)
      modifies this
      ensures Reply(Db(), error) == ReplaceProfileServices(old(Db()), id, name, services)
    {
      if id !in workspaces || name !in workspaces[id].profiles {
        return Some(ProfileNotFound);
      }
      workspaces := workspaces[id := workspaces[id].(profiles := workspaces[id].profiles[name := services])];
      error := None;
    }

    method DropProfile(id: nat, name: string) returns (error: Option<Error>)
      modifies this
      ensures Reply(Db(), error) == RemoveProfile(old(Db()), id, name)
    {
      if id !in workspaces || name !in workspaces[id].profiles {
        return Some(ProfileNotFound);
      }
      workspaces := workspaces[id := workspaces[id].(profiles := workspaces[id].profiles - {name})];
      error := None;
    }
  }
}
