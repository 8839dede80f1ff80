/** What every call of the registry fails on, and what it leaves in every row of every table. */
module RegistryHistory {
  import opened Names
  import opened Wrappers
  import opened ModelRegistry

  function At<V>(t: map<Child, V>, k: Key, v: int, tag: string): Option<V> {
    if Child(k, v, tag) in t then Some(t[Child(k, v, tag)]) else None
  }

  function ModelAt(db: Db, k: Key): Option<Model> {
    if k in db.models then Some(db.models[k]) else None
  }

  function VersionAt(db: Db, k: Key, v: int): Option<Version> { At(db.versions, k, v, "") }

  function AliasAt(db: Db, k: Key, alias: string): Option<int> { At(db.aliases, k, 0, alias) }

  function ModelTagAt(db: Db, k: Key, tag: string): Option<string> { At(db.modelTags, k, 0, tag) }

  function VersionTagAt(db: Db, k: Key, v: int, tag: string): Option<string> { At(db.versionTags, k, v, tag) }

  // ----- errors -----

  /** Why a call fails, if it does. */
  function Failure(db: Db, op: Op): Option<Error> {
    match op
    case CreateModelOp(k, _) =>
      if !ValidName(k.name) then Some(InvalidName) else if k in db.models then Some(AlreadyExists) else None
    case RenameOp(k, name, _) =>
      if !ValidName(name) then Some(InvalidName)
      else if k !in db.models then Some(NotFound)
      else if Key(k.workspace, name) in db.models then Some(AlreadyExists)
      else None
    case CreateVersionOp(k, _) =>
      if !ValidName(k.name) then Some(InvalidName) else Missing(k in db.models)
    case UpdateModelOp(k, _, _) => Missing(k in db.models)
    case DeleteModelOp(k) => Missing(k in db.models)
    case SetModelTagOp(k, _, _) => Missing(k in db.models)
    case DeleteModelTagOp(k, tag) => Missing(ModelTagAt(db, k, tag).Some?)
    case UpdateVersionOp(k, v, _, _) => Missing(VersionAt(db, k, v).Some?)
    case DeleteVersionOp(k, v) => Missing(VersionAt(db, k, v).Some?)
    case TransitionOp(k, v, _, _, _) => Missing(VersionAt(db, k, v).Some?)
    case SetVersionTagOp(k, v, _, _) => Missing(VersionAt(db, k, v).Some?)
    case DeleteVersionTagOp(k, v, tag) => Missing(VersionTagAt(db, k, v, tag).Some?)
    case SetAliasOp(k, _, v) => Missing(VersionAt(db, k, v).Some?)
    case DeleteAliasOp(k, alias) => Missing(AliasAt(db, k, alias).Some?)
  }

  function Missing(found: bool): Option<Error> {
    if found then None else Some(NotFound)
  }

  /** Every call fails exactly for these reasons, and a failed call changes nothing. */
  lemma {:induction false} FailsExactly(db: Db, op: Op, s: Step)
    requires Next(db, op, s)
    ensures s.error == Failure(db, op) && (s.error.Some? ==> s.db == db)
  {
  }

  // ----- rows -----

  /** What happens to the rows under a name when models are deleted or renamed. */
  datatype Fate = Stay | Go | ComeFrom(from: Key)

  function FateOf(db: Db, op: Op, k: Key): Fate {
    match op
    case DeleteModelOp(m) => if m == k then Go else Stay
    case RenameOp(m, name, _) =>
      if Failure(db, op).Some? then Stay
      else if m == k then Go
      else if Key(m.workspace, name) == k then ComeFrom(m)
      else Stay
    case _ => Stay
  }

  lemma {:induction false} RenamedAt<V>(t: map<Child, V>, from: Key, to: Key, k: Key, v: int, tag: string)
    requires from != to && forall x | x in t :: x.model != to
    ensures At(Renamed(t, from, to), k, v, tag)
         == if k == from then None else if k == to then At(t, from, v, tag) else At(t, k, v, tag)
  {
  }

  lemma {:induction false} WithoutAt<V>(t: map<Child, V>, k: Key, m: Key, v: int, tag: string)
    ensures At(Without(t, k), m, v, tag) == if m == k then None else At(t, m, v, tag)
  {
  }

  /** The rows of a child table after a model is deleted or renamed. */
  lemma {:induction false} FateOfRows(db: Db, op: Op, s: Step, k: Key, v: int, tag: string)
    requires Sound(db) && Next(db, op, s) && (op.DeleteModelOp? || op.RenameOp?)
    ensures match FateOf(db, op, k)
            case Stay =>
              && At(s.db.versions, k, v, tag) == At(db.versions, k, v, tag)
              && At(s.db.aliases, k, v, tag) == At(db.aliases, k, v, tag)
              && At(s.db.modelTags, k, v, tag) == At(db.modelTags, k, v, tag)
              && At(s.db.versionTags, k, v, tag) == At(db.versionTags, k, v, tag)
            case Go =>
              && At(s.db.versions, k, v, tag).None? && At(s.db.aliases, k, v, tag).None?
              && At(s.db.modelTags, k, v, tag).None? && At(s.db.versionTags, k, v, tag).None?
            case ComeFrom(m) =>
              && At(s.db.versions, k, v, tag) == At(db.versions, m, v, tag)
              && At(s.db.aliases, k, v, tag) == At(db.aliases, m, v, tag)
              && At(s.db.modelTags, k, v, tag) == At(db.modelTags, m, v, tag)
              && At(s.db.versionTags, k, v, tag) == At(db.versionTags, m, v, tag)
  {
    FailsExactly(db, op, s);
    if op.RenameOp? && Failure(db, op).None? {
      var to := Key(op.k.workspace, op.newName);
      RenamedAt(db.versions, op.k, to, k, v, tag);
      RenamedAt(db.aliases, op.k, to, k, v, tag);
      RenamedAt(db.modelTags, op.k, to, k, v, tag);
      RenamedAt(db.versionTags, op.k, to, k, v, tag);
    } else if op.DeleteModelOp? && Failure(db, op).None? {
      WithoutAt(db.versions, op.k, k, v, tag);
      WithoutAt(db.aliases, op.k, k, v, tag);
      WithoutAt(db.modelTags, op.k, k, v, tag);
      WithoutAt(db.versionTags, op.k, k, v, tag);
    }
  }

  // ----- models -----

  function NextModel(db: Db, op: Op, k: Key): Option<Model> {
    var was := ModelAt(db, k);
    if Failure(db, op).Some? then was
    else
      match op
      case CreateModelOp(m, x) => if m == k then Some(x) else was
      case UpdateModelOp(m, text, now) => if m == k then Some(Model(text, now)) else was
      case DeleteModelOp(m) => if m == k then None else was
      case RenameOp(m, name, now) =>
        if m == k then None
        else if Key(m.workspace, name) == k then Some(Model(db.models[m].description, now))
        else was
      case _ => was
  }

  lemma {:induction false} ModelAfterCall(db: Db, op: Op, s: Step, k: Key)
    requires Next(db, op, s)
    ensures ModelAt(s.db, k) == NextModel(db, op, k)
  {
    FailsExactly(db, op, s);
  }

  // ----- versions -----

  /** The row of a version after a call: a transition archives the others in Production only if asked to. */
  ghost function NextVersion(db: Db, op: Op, k: Key, v: int): Option<Version> {
    var was := VersionAt(db, k, v);
    if Failure(db, op).Some? then was
    else
      match op
      case CreateVersionOp(m, x) => if m == k && IsNext(db.versions, k, v) then Some(x) else was
      case UpdateVersionOp(m, u, text, now) =>
        if m == k && u == v && was.Some? then Some(Version(was.value.stage, text, was.value.source, now)) else was
      case TransitionOp(m, u, stage, archive, now) =>
        if m != k || was.None? then was
        else if u == v then Some(was.value.(stage := stage, updated := now))
        else if archive && stage == Production && was.value.stage == Production
        then Some(was.value.(stage := Archived, updated := now))
        else was
      case DeleteVersionOp(m, u) => if m == k && u == v then None else was
      case _ =>
        match FateOf(db, op, k)
        case Stay => was
        case Go => None
        case ComeFrom(m) => VersionAt(db, m, v)
  }

  lemma {:induction false} NextIsOne(db: Db, k: Key, m: int, n: int)
    requires Sound(db) && IsNext(db.versions, k, m) && IsNext(db.versions, k, n)
    ensures m == n
  {
    assert VersionKey(k, m - 1) in db.versions || m == 1;
    assert VersionKey(k, n - 1) in db.versions || n == 1;
  }

  lemma {:induction false} CreatedVersion(db: Db, op: Op, s: Step, k: Key, v: int)
    requires Sound(db) && Next(db, op, s) && op.CreateVersionOp?
    ensures VersionAt(s.db, k, v) == NextVersion(db, op, k, v)
  {
    var n :| IsNext(db.versions, op.k, n) && s == CreateVersion(db, op.k, op.x, n);
    if k == op.k && IsNext(db.versions, k, v) {
      NextIsOne(db, k, v, n);
    }
  }

  lemma {:induction false} RewrittenVersion(db: Db, op: Op, s: Step, k: Key, v: int)
    requires Next(db, op, s) && (op.UpdateVersionOp? || op.DeleteVersionOp?)
    ensures VersionAt(s.db, k, v) == NextVersion(db, op, k, v)
  {
  }

  lemma {:induction false} MovedVersion(db: Db, op: Op, s: Step, k: Key, v: int)
    requires Next(db, op, s) && op.TransitionOp?
    ensures VersionAt(s.db, k, v) == NextVersion(db, op, k, v)
  {
  }

  lemma {:induction false} OtherVersion(db: Db, op: Op, s: Step, k: Key, v: int)
    requires Next(db, op, s) && !op.UpdateVersionOp? && !op.TransitionOp? && !op.DeleteVersionOp?
    requires !op.CreateVersionOp? && !op.DeleteModelOp? && !op.RenameOp?
    ensures s.db.versions == db.versions
  {
  }

  lemma {:induction false} VersionAfterCall(db: Db, op: Op, s: Step, k: Key, v: int)
    requires Sound(db) && Next(db, op, s)
    ensures VersionAt(s.db, k, v) == NextVersion(db, op, k, v)
  {
    FailsExactly(db, op, s);
    if op.CreateVersionOp? {
      CreatedVersion(db, op, s, k, v);
    } else if op.TransitionOp? {
      MovedVersion(db, op, s, k, v);
    } else if op.UpdateVersionOp? || op.DeleteVersionOp? {
      RewrittenVersion(db, op, s, k, v);
    } else if op.DeleteModelOp? || op.RenameOp? {
      FateOfRows(db, op, s, k, v, "");
    } else {
      OtherVersion(db, op, s, k, v);
    }
  }

  // ----- aliases -----

  /** What an alias points to after a call; it goes with its version. */
  function NextAlias(db: Db, op: Op, k: Key, alias: string): Option<int> {
    var was := AliasAt(db, k, alias);
    if Failure(db, op).Some? then was
    else
      match op
      case SetAliasOp(m, a, v) => if m == k && a == alias then Some(v) else was
      case DeleteAliasOp(m, a) => if m == k && a == alias then None else was
      case DeleteVersionOp(m, v) => if m == k && was == Some(v) then None else was
      case _ =>
        match FateOf(db, op, k)
        case Stay => was
        case Go => None
        case ComeFrom(m) => AliasAt(db, m, alias)
  }

  lemma {:induction false} OtherAlias(db: Db, op: Op, s: Step)
    requires Next(db, op, s) && !op.SetAliasOp? && !op.DeleteAliasOp?
    requires !op.DeleteVersionOp? && !op.DeleteModelOp? && !op.RenameOp?
    ensures s.db.aliases == db.aliases
  {
  }

  lemma {:induction false} RewrittenAlias(db: Db, op: Op, s: Step, k: Key, alias: string)
    requires Next(db, op, s) && (op.SetAliasOp? || op.DeleteAliasOp? || op.DeleteVersionOp?)
    ensures AliasAt(s.db, k, alias) == NextAlias(db, op, k, alias)
  {
  }

  lemma {:induction false} AliasAfterCall(db: Db, op: Op, s: Step, k: Key, alias: string)
    requires Sound(db) && Next(db, op, s)
    ensures AliasAt(s.db, k, alias) == NextAlias(db, op, k, alias)
  {
    FailsExactly(db, op, s);
    if op.SetAliasOp? || op.DeleteAliasOp? || op.DeleteVersionOp? {
      RewrittenAlias(db, op, s, k, alias);
    } else if op.DeleteModelOp? || op.RenameOp? {
      FateOfRows(db, op, s, k, 0, alias);
    } else {
      OtherAlias(db, op, s);
    }
  }

  // ----- tags -----

  function NextModelTag(db: Db, op: Op, k: Key, tag: string): Option<string> {
    var was := ModelTagAt(db, k, tag);
    if Failure(db, op).Some? then was
    else
      match op
      case SetModelTagOp(m, t, value) => if m == k && t == tag then Some(value) else was
      case DeleteModelTagOp(m, t) => if m == k && t == tag then None else was
      case _ =>
        match FateOf(db, op, k)
        case Stay => was
        case Go => None
        case ComeFrom(m) => ModelTagAt(db, m, tag)
  }

  /** A tag of a version goes with the version. */
  function NextVersionTag(db: Db, op: Op, k: Key, v: int, tag: string): Option<string> {
    var was := VersionTagAt(db, k, v, tag);
    if Failure(db, op).Some? then was
    else
      match op
      case SetVersionTagOp(m, u, t, value) => if m == k && u == v && t == tag then Some(value) else was
      case DeleteVersionTagOp(m, u, t) => if m == k && u == v && t == tag then None else was
      case DeleteVersionOp(m, u) => if m == k && u == v then None else was
      case _ =>
        match FateOf(db, op, k)
        case Stay => was
        case Go => None
        case ComeFrom(m) => VersionTagAt(db, m, v, tag)
  }

  lemma {:induction false} OtherTags(db: Db, op: Op, s: Step)
    requires Next(db, op, s) && !op.DeleteModelOp? && !op.RenameOp?
    ensures !op.SetModelTagOp? && !op.DeleteModelTagOp? ==> s.db.modelTags == db.modelTags
    ensures !op.SetVersionTagOp? && !op.DeleteVersionTagOp? && !op.DeleteVersionOp? ==>
              s.db.versionTags == db.versionTags
  {
  }

  lemma {:induction false} ModelTagAfterCall(db: Db, op: Op, s: Step, k: Key, tag: string)
    requires Sound(db) && Next(db, op, s)
    ensures ModelTagAt(s.db, k, tag) == NextModelTag(db, op, k, tag)
  {
    FailsExactly(db, op, s);
    if op.DeleteModelOp? || op.RenameOp? {
      FateOfRows(db, op, s, k, 0, tag);
    } else if !op.SetModelTagOp? && !op.DeleteModelTagOp? {
      OtherTags(db, op, s);
    }
  }

  lemma {:induction false} RewrittenVersionTag(db: Db, op: Op, s: Step, k: Key, v: int, tag: string)
    requires Next(db, op, s) && (op.SetVersionTagOp? || op.DeleteVersionTagOp? || op.DeleteVersionOp?)
    ensures VersionTagAt(s.db, k, v, tag) == NextVersionTag(db, op, k, v, tag)
  {
  }

  lemma {:induction false} VersionTagAfterCall(db: Db, op: Op, s: Step, k: Key, v: int, tag: string)
    requires Sound(db) && Next(db, op, s)
    ensures VersionTagAt(s.db, k, v, tag) == NextVersionTag(db, op, k, v, tag)
  {
    FailsExactly(db, op, s);
    if op.DeleteModelOp? || op.RenameOp? {
      FateOfRows(db, op, s, k, v, tag);
    } else if op.SetVersionTagOp? || op.DeleteVersionTagOp? || op.DeleteVersionOp? {
      RewrittenVersionTag(db, op, s, k, v, tag);
    } else {
      OtherTags(db, op, s);
    }
  }
}
