/** What each request about a workspace does to the tables, read off the tables before and
    after, and exactly when it succeeds (internal/project/project.go, internal/project/service.go). */
module FacadeEffects {
  import opened Text
  import opened WorkspaceStore
  import opened FreshNames
  import opened Facade

  // ------------------------------------------------------------------ what is compared

  /** A profile that may be used: it has services, and each is of a known type, which is its id
      if it names none, with a config valid for that type. */
  ghost predicate Usable(reg: Registry, services: Services) {
    && (exists id :: id in services)
    && forall id :: id in services ==>
      var t := if services[id].type_ == "" then id else services[id].type_;
      t in reg.types && reg.valid(t, services[id].config)
  }

  lemma UsableIsValid(reg: Registry, services: Services)
    ensures Usable(reg, services) <==> ValidProfile(reg, services)
  {
    if id :| id in services {
      assert services.Keys != {};
    }
    forall id | id in services
      ensures ServiceOk(reg, id, services[id]) <==>
        var t := if services[id].type_ == "" then id else services[id].type_; t in reg.types && reg.valid(t, services[id].config)
    {
    }
    if services.Keys != {} {
      var id :| id in services.Keys;
      assert id in services;
    }
  }

  ghost predicate Has(db: DB, w: nat, profile: string) {
    w in db.workspaces && profile in db.workspaces[w].profiles
  }

  ghost function Profile(db: DB, w: nat, profile: string): Services
    requires Has(db, w, profile)
  {
    db.workspaces[w].profiles[profile]
  }

  /** Nothing has changed but what is in one workspace. */
  ghost predicate OnlyIn(before: DB, after: DB, w: nat) {
    && after.nextId == before.nextId && after.active == before.active
    && (forall x :: x in after.workspaces <==> x in before.workspaces)
    && (forall x :: x in before.workspaces && x != w ==> after.workspaces[x] == before.workspaces[x])
    && w in before.workspaces && after.workspaces[w].name == before.workspaces[w].name
  }

  /** Nothing has changed but one profile of one workspace. */
  ghost predicate OnlyProfile(before: DB, after: DB, w: nat, profile: string) {
    && OnlyIn(before, after, w)
    && after.workspaces[w].active == before.workspaces[w].active
    && forall p :: p != profile ==>
      && (Has(after, w, p) <==> Has(before, w, p))
      && (Has(before, w, p) ==> Profile(after, w, p) == Profile(before, w, p))
  }

  /** Nothing has changed but one service of one profile. */
  ghost predicate OnlyService(before: Services, after: Services, id: string) {
    forall x :: x != id ==> (x in after <==> x in before) && (x in before ==> after[x] == before[x])
  }

  // --------------------------------------------------------------------------- profiles

  lemma ActivateDoes(reg: Registry, db: DB, w: nat, name: string)
    ensures var r := HandleProfile(reg, db, w, Activate(name));
      && r.error == (if !Has(db, w, name) then Some(ProfileNotFound)
                     else if !Usable(reg, Profile(db, w, name)) then Some(InvalidProfile) else None)
      && (r.error == None ==>
            OnlyIn(db, r.db, w) && r.db.workspaces[w].profiles == db.workspaces[w].profiles && r.db.workspaces[w].active == name)
  {
    if Has(db, w, name) {
      UsableIsValid(reg, Profile(db, w, name));
    }
  }

  lemma UpdateDoes(reg: Registry, db: DB, w: nat, name: string, services: Services)
    ensures var r := HandleProfile(reg, db, w, Update(name, services));
      && r.error == (if !Has(db, w, name) then Some(ProfileNotFound) else if !Usable(reg, services) then Some(InvalidProfile) else None)
      && (r.error == None ==> OnlyProfile(db, r.db, w, name) && Has(r.db, w, name) && Profile(r.db, w, name) == services)
  {
    UsableIsValid(reg, services);
  }

  lemma AddDoes(reg: Registry, db: DB, w: nat, name: string)
    ensures var r := HandleProfile(reg, db, w, Add(name));
      && r.error == (if w !in db.workspaces then Some(WorkspaceNotFound) else if Has(db, w, name) then Some(ProfileExists) else None)
      && (r.error == None ==> OnlyProfile(db, r.db, w, name) && Has(r.db, w, name) && forall id :: id !in Profile(r.db, w, name))
  {
  }

  /** The active profile cannot be dropped. */
  lemma DropDoes(reg: Registry, db: DB, w: nat, name: string)
    ensures var r := HandleProfile(reg, db, w, Drop(name));
      && r.error == (if w in db.workspaces && db.workspaces[w].active == name then Some(ActiveProfileInUse)
                     else if !Has(db, w, name) then Some(ProfileNotFound) else None)
      && (r.error == None ==> OnlyProfile(db, r.db, w, name) && !Has(r.db, w, name))
  {
  }

  // --------------------------------------------------------------------------- the fork

  /** The local copy of a service: of the same type and name; every setting is the local one
      where there is one, and otherwise the source's. */
  ghost predicate IsLocalCopy(source: Entry, localEnv: Config, copy: Entry) {
    && copy.type_ == source.type_ && copy.name == source.name
    && forall k ::
      && (k in copy.config <==> k in localEnv || k in source.config)
      && (k in localEnv ==> k in copy.config && copy.config[k] == localEnv[k])
      && (k !in localEnv && k in source.config ==> k in copy.config && copy.config[k] == source.config[k])
  }

  /** The services of the local profile, none if there is no such profile. */
  ghost function Local(db: DB, w: nat): Services {
    if Has(db, w, "local") then Profile(db, w, "local") else map[]
  }

  /** The local profile that a fork asks for: its services as before, with the copy. */
  ghost predicate IsForked(db: DB, w: nat, source: string, svc: string, localEnv: Config, services: Services)
    requires Has(db, w, source) && svc in Profile(db, w, source)
  {
    && OnlyService(Local(db, w), services, svc)
    && svc in services && IsLocalCopy(Profile(db, w, source)[svc], localEnv, services[svc])
  }

  lemma ForkedIsOnly(db: DB, w: nat, source: string, svc: string, localEnv: Config, services: Services)
    requires Has(db, w, source) && svc in Profile(db, w, source)
    ensures IsForked(db, w, source, svc, localEnv, Forked(db, w, source, svc, localEnv))
    ensures IsForked(db, w, source, svc, localEnv, services) ==> services == Forked(db, w, source, svc, localEnv)
  {
    if IsForked(db, w, source, svc, localEnv, services) {
      assert services[svc].config == Profile(db, w, source)[svc].config + localEnv;
      assert services[svc] == Forked(db, w, source, svc, localEnv)[svc];
    }
  }

  /** A fork stores the local copy in the local profile, which it creates if there is none, and
      changes nothing else; it succeeds exactly when source and service exist, and both
      the source and the local profile it leads to may be used. */
  lemma ForkDoes(reg: Registry, db: DB, w: nat, source: string, svc: string, localEnv: Config)
    ensures var r := HandleProfile(reg, db, w, ForkInto(source, svc, localEnv));
      && (r.error == None <==>
            && Has(db, w, source) && Usable(reg, Profile(db, w, source)) && svc in Profile(db, w, source)
            && exists services :: IsForked(db, w, source, svc, localEnv, services) && Usable(reg, services))
      && (r.error.Some? ==>
            r.error == Some(if !Has(db, w, source) then ProfileNotFound
                            else if Usable(reg, Profile(db, w, source)) && svc !in Profile(db, w, source) then ServiceNotDefined
                            else InvalidProfile))
      && (r.error == None ==>
            && OnlyProfile(db, r.db, w, "local") && Has(r.db, w, "local")
            && IsForked(db, w, source, svc, localEnv, Profile(r.db, w, "local")))
  {
    hide Forked, ValidProfile, Usable, IsForked;
    if Has(db, w, source) {
      UsableIsValid(reg, Profile(db, w, source));
      if svc in Profile(db, w, source) {
        var forked := Forked(db, w, source, svc, localEnv);
        ForkedIsOnly(db, w, source, svc, localEnv, forked);
        UsableIsValid(reg, forked);
        forall services | IsForked(db, w, source, svc, localEnv, services) ensures services == forked {
          ForkedIsOnly(db, w, source, svc, localEnv, services);
        }
      }
    }
  }

  // --------------------------------------------------------------------------- services

  ghost predicate IsNumbered(services: Services, type_: string, id: string, n: nat) {
    id == type_ + "-" + Digits(n) && forall k: nat :: 2 <= k < n ==> type_ + "-" + Digits(k) in services
  }

  /** The id for a new service: its type, or the type with the least number from 2 on that makes
      it new. */
  ghost predicate IsNewId(services: Services, type_: string, id: string) {
    && id !in services
    && (id == type_ || (type_ in services && exists n: nat :: n >= 2 && IsNumbered(services, type_, id, n)))
  }

  lemma FreshIsNewId(services: Services, type_: string)
    ensures IsNewId(services, type_, Fresh(services.Keys, Dashed, type_))
  {
    var id := Fresh(services.Keys, Dashed, type_);
    if id != type_ {
      var n :| 2 <= n && id == Candidate(Dashed, type_, n) && AllTaken(services.Keys, Dashed, type_, n);
      forall k: nat | 2 <= k < n ensures type_ + "-" + Digits(k) in services {
        assert Candidate(Dashed, type_, k) in services.Keys;
      }
      assert IsNumbered(services, type_, id, n);
    }
  }

  lemma AddServiceDoes(reg: Registry, db: DB, w: nat, profile: string, type_: string, title: string, cfg: Option<Config>)
    ensures var r := HandleProfile(reg, db, w, AddService(profile, type_, title, cfg));
      && r.error == (if type_ !in reg.types then Some(UnknownService) else if !Has(db, w, profile) then Some(ProfileNotFound)
                     else if cfg.Some? && !reg.valid(type_, cfg.value) then Some(InvalidConfig) else None)
      && (r.error == None ==>
            && OnlyProfile(db, r.db, w, profile) && Has(r.db, w, profile)
            && exists id :: IsNewId(Profile(db, w, profile), type_, id)
                 && OnlyService(Profile(db, w, profile), Profile(r.db, w, profile), id)
                 && id in Profile(r.db, w, profile)
                 && var e := Profile(r.db, w, profile)[id];
                    && e.type_ == type_ && e.name == (if title == "" then id else title)
                    && e.config == if cfg.Some? then cfg.value else reg.defaults(type_))
  {
    if type_ in reg.types && Has(db, w, profile) {
      FreshIsNewId(Profile(db, w, profile), type_);
      hide Fresh, IsNewId;
    }
  }

  /** The type stays, the name only if no new one is given; the id stands for what is not set. */
  lemma UpdateServiceDoes(reg: Registry, db: DB, w: nat, profile: string, id: string, title: string, cfg: Config)
    ensures var r := HandleProfile(reg, db, w, UpdateService(profile, id, title, cfg));
      && r.error == (if !Has(db, w, profile) then Some(ProfileNotFound)
                     else if id !in Profile(db, w, profile) then Some(ServiceNotDefined)
                     else
                       var named := Profile(db, w, profile)[id].type_;
                       var t := if named == "" then id else named;
                       if t !in reg.types then Some(UnknownService) else if !reg.valid(t, cfg) then Some(InvalidConfig) else None)
      && (r.error == None ==>
            && OnlyProfile(db, r.db, w, profile) && Has(r.db, w, profile)
            && OnlyService(Profile(db, w, profile), Profile(r.db, w, profile), id) && id in Profile(r.db, w, profile)
            && var (old_, new_) := (Profile(db, w, profile)[id], Profile(r.db, w, profile)[id]);
               && new_.type_ == (if old_.type_ == "" then id else old_.type_) && new_.config == cfg
               && new_.name == if title != "" then title else if old_.name != "" then old_.name else id)
  {
  }

  lemma OneLeft(services: Services, id: string)
    requires id in services
    ensures |services| == 1 <==> forall x :: x in services ==> x == id
  {
    if forall x :: x in services ==> x == id {
      assert services.Keys == {id};
    } else {
      var x :| x in services && x != id;
      SubsetSize({id, x}, services.Keys);
    }
  }

  /** The last service of a profile stays. */
  lemma RemoveServiceDoes(reg: Registry, db: DB, w: nat, profile: string, id: string)
    ensures var r := HandleProfile(reg, db, w, RemoveService(profile, id));
      && r.error == (if !Has(db, w, profile) then Some(ProfileNotFound)
                     else if id !in Profile(db, w, profile) then Some(ServiceNotDefined)
                     else if forall x :: x in Profile(db, w, profile) ==> x == id then Some(LastService) else None)
      && (r.error == None ==>
            && OnlyProfile(db, r.db, w, profile) && Has(r.db, w, profile)
            && OnlyService(Profile(db, w, profile), Profile(r.db, w, profile), id) && id !in Profile(r.db, w, profile))
  {
    if Has(db, w, profile) && id in Profile(db, w, profile) {
      OneLeft(Profile(db, w, profile), id);
    }
  }
}
