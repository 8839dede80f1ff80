/** The calls that rewrite the registry's tables, statement by statement, with rollback. */
module RegistryStore {
  import opened Names
  import opened Wrappers
  import opened ModelRegistry

  /** One UPDATE of the name column; it is refused when a new primary key is taken. */
  method UpdateName<V>(t: map<Child, V>, from: Key, to: Key) returns (r: Option<map<Child, V>>)
    ensures r == if Free(t, from, to) then Some(Renamed(t, from, to)) else None
  {
    if !Free(t, from, to) {
      return None;
    }
    return Some(Renamed(t, from, to));
  }

  class Store {
    var models: map<Key, Model>
    var versions: map<Child, Version>
    var modelTags: map<Child, string>
    var versionTags: map<Child, string>
    var aliases: map<Child, int>

    function Contents(): Db
      reads this
    {
      Db(models, versions, modelTags, versionTags, aliases)
    }

    constructor ()
      ensures Contents() == EMPTY && Sound(Contents())
    {
      models, versions, modelTags, versionTags, aliases := map[], map[], map[], map[], map[];
    }

    method Rollback(db: Db)
      modifies this
      ensures Contents() == db
    {
      models, versions, aliases := db.models, db.versions, db.aliases;
      modelTags, versionTags := db.modelTags, db.versionTags;
    }

    /** The four child tables, then the model. With every row in place none of the updates is refused. */
    method RenameRegisteredModel(from: Key, newName: string, now: int) returns (error: Option<Error>)
      requires Sound(Contents())
      modifies this
      ensures Step(Contents(), error) == Rename(old(Contents()), from, newName, now)
      ensures Sound(Contents())
    {
      if !ValidName(newName) {
        return Some(InvalidName);
      }
      if from !in models {
        return Some(NotFound);
      }
      var to := from.(name := newName);
      if to in models {
        return Some(AlreadyExists);
      }
      RenameCannotCollide(Contents(), from, to);
      RenameKeepsSound(Contents(), from, newName, now);
      var renamedVersions := UpdateName(versions, from, to);
      var renamedVersionTags := UpdateName(versionTags, from, to);
      var renamedModelTags := UpdateName(modelTags, from, to);
      var renamedAliases := UpdateName(aliases, from, to);
      versions := renamedVersions.value;
      versionTags := renamedVersionTags.value;
      modelTags := renamedModelTags.value;
      aliases := renamedAliases.value;
      models := (models - {from})[to := models[from].(updated := now)];
      return None;
    }

    /** The newest version of the model, 0 if there is none. */
    method MaxVersion(k: Key) returns (max: int)
      requires VersionsOk(models.Keys, versions)
      ensures IsNext(versions, k, max + 1)
    {
      max := 0;
      var rest := versions.Keys;
      while rest != {}
        invariant max >= 0 && rest <= versions.Keys
        invariant forall c | c in versions && c !in rest && c.model == k :: c.version <= max
        invariant max == 0 || VersionKey(k, max) in versions
        decreases rest
      {
        var c :| c in rest;
        rest := rest - {c};
        if c.model == k && c.version > max {
          assert c == VersionKey(k, c.version);
          max := c.version;
        }
      }
    }

    method CreateModelVersion(k: Key, v: Version) returns (error: Option<Error>, version: int)
      requires Sound(Contents())
      modifies this`versions
      ensures error.None? ==> IsNext(old(versions), k, version)
      ensures error.None? ==> Step(Contents(), error) == CreateVersion(old(Contents()), k, v, version)
      ensures error == if !ValidName(k.name) then Some(InvalidName) else if k !in models then Some(NotFound) else None
      ensures error.Some? ==> Contents() == old(Contents())
      ensures Sound(Contents())
    {
      version := 0;
      if !ValidName(k.name) {
        return Some(InvalidName), 0;
      }
      if k !in models {
        return Some(NotFound), 0;
      }
      var max := MaxVersion(k);
      version := max + 1;
      assert Next(Contents(), CreateVersionOp(k, v), CreateVersion(Contents(), k, v, version));
      CallKeepsSound(Contents(), CreateVersionOp(k, v), CreateVersion(Contents(), k, v, version));
      versions := versions[VersionKey(k, version) := v];
      return None, version;
    }

    method DeleteModelVersion(k: Key, v: int) returns (error: Option<Error>)
      requires Sound(Contents())
      modifies this
      ensures Step(Contents(), error) == DeleteVersion(old(Contents()), k, v)
      ensures Sound(Contents())
    {
      DeleteVersionKeepsSound(Contents(), k, v);
      if VersionKey(k, v) !in versions {
        return Some(NotFound);
      }
      versions := versions - {VersionKey(k, v)};
      versionTags := map c | c in versionTags && !(c.model == k && c.version == v) :: versionTags[c];
      aliases := map c | c in aliases && !(c.model == k && aliases[c] == v) :: aliases[c];
      return None;
    }

    method SetModelAlias(k: Key, alias: string, v: int) returns (error: Option<Error>)
      requires Sound(Contents())
      modifies this`aliases
      ensures Step(Contents(), error) == SetAlias(old(Contents()), k, alias, v)
      ensures Sound(Contents())
    {
      if VersionKey(k, v) !in versions {
        return Some(NotFound);
      }
      aliases := aliases[LabelKey(k, alias) := v];
      return None;
    }

    /** Archives the other versions first, and undoes that when the version turns out to be missing. */
    method TransitionModelStage(k: Key, v: int, stage: Stage, archiveExisting: bool, now: int)
        returns (error: Option<Error>)
      requires Sound(Contents())
      modifies this
      ensures Step(Contents(), error) == TransitionStage(old(Contents()), k, v, stage, archiveExisting, now)
      ensures error.Some? <==> VersionKey(k, v) !in old(versions)
      ensures error.Some? ==> Contents() == old(Contents())
      ensures Sound(Contents())
    {
      var saved := Contents();
      TransitionFailsCleanly(saved, k, v, stage, archiveExisting, now);
      TransitionKeepsKeys(saved, k, v, stage, archiveExisting, now);
      SameKeysSound(saved, TransitionStage(saved, k, v, stage, archiveExisting, now).db);
      if archiveExisting && stage == Production {
        versions := ArchiveOthers(versions, k, v, now);
      }
      var c := VersionKey(k, v);
      if c !in versions {
        Rollback(saved);
        return Some(NotFound);
      }
      versions := versions[c := versions[c].(stage := stage, updated := now)];
      return None;
    }
  }
}
