/** The tables of the model registry and what every call leaves true of them. */
module ModelRegistry {
  import opened Names
  import opened Wrappers

  datatype Key = Key(workspace: string, name: string)

  /** The primary key of a child row; the columns a table does not have are 0 or empty. */
  datatype Child = Child(model: Key, version: int, tag: string)

  datatype Stage = NoStage | Staging | Production | Archived

  datatype Model = Model(description: string, updated: int)

  datatype Version = Version(stage: Stage, description: string, source: string, updated: int)

  datatype Db = Db(
    models: map<Key, Model>,
    versions: map<Child, Version>,
    modelTags: map<Child, string>,
    versionTags: map<Child, string>,
    aliases: map<Child, int>)

  datatype Error = NotFound | AlreadyExists | InvalidName

  datatype Step = Step(db: Db, error: Option<Error>)

  const EMPTY: Db := Db(map[], map[], map[], map[], map[])

  function VersionKey(m: Key, v: int): Child { Child(m, v, "") }

  function LabelKey(m: Key, tag: string): Child { Child(m, 0, tag) }

  ghost predicate VersionsOk(models: set<Key>, versions: map<Child, Version>) {
    forall c | c in versions :: c.tag == "" && c.version >= 1 && c.model in models
  }

  ghost predicate ModelTagsOk(models: set<Key>, tags: map<Child, string>) {
    forall c | c in tags :: c.version == 0 && c.model in models
  }

  ghost predicate VersionTagsOk(versions: map<Child, Version>, tags: map<Child, string>) {
    forall c | c in tags :: VersionKey(c.model, c.version) in versions
  }

  ghost predicate AliasesOk(versions: map<Child, Version>, aliases: map<Child, int>) {
    forall c | c in aliases :: c.version == 0 && VersionKey(c.model, aliases[c]) in versions
  }

  /** Every version and tag and alias row refers to a model, and to a version of it, that exists. */
  ghost predicate Sound(db: Db) {
    && VersionsOk(db.models.Keys, db.versions)
    && ModelTagsOk(db.models.Keys, db.modelTags)
    && VersionTagsOk(db.versions, db.versionTags)
    && AliasesOk(db.versions, db.aliases)
  }

  // ----- models -----

  function CreateModel(db: Db, k: Key, m: Model): Step {
    if !ValidName(k.name) then Step(db, Some(InvalidName))
    else if k in db.models then Step(db, Some(AlreadyExists))
    else Step(db.(models := db.models[k := m]), None)
  }

  function UpdateModel(db: Db, k: Key, description: string, now: int): Step {
    if k !in db.models then Step(db, Some(NotFound))
    else Step(db.(models := db.models[k := Model(description, now)]), None)
  }

  function Without<V>(t: map<Child, V>, k: Key): map<Child, V> {
    map c | c in t && c.model != k :: t[c]
  }

  /** Deleting a model takes its versions, tags and aliases with it. */
  function DeleteModel(db: Db, k: Key): Step {
    if k !in db.models then Step(db, Some(NotFound))
    else Step(Db(db.models - {k}, Without(db.versions, k), Without(db.modelTags, k),
                 Without(db.versionTags, k), Without(db.aliases, k)), None)
  }

  // ----- renaming -----

  /** The primary keys of the rows that change name are free. */
  predicate Free<V>(t: map<Child, V>, from: Key, to: Key) {
    forall c | c in t && c.model == from :: c.(model := to) !in t
  }

  /** The table after its rows under one name are put under another. */
  function Renamed<V>(t: map<Child, V>, from: Key, to: Key): map<Child, V> {
    var moved := set c | c in t && c.model == from :: c.(model := to);
    (map c | c in t && c.model != from :: t[c]) + (map c | c in moved && c.(model := from) in t :: t[c.(model := from)])
  }

  function Rename(db: Db, from: Key, newName: string, now: int): Step {
    var to := from.(name := newName);
    if !ValidName(newName) then Step(db, Some(InvalidName))
    else if from !in db.models then Step(db, Some(NotFound))
    else if to in db.models then Step(db, Some(AlreadyExists))
    else Step(Db((db.models - {from})[to := db.models[from].(updated := now)],
                 Renamed(db.versions, from, to), Renamed(db.modelTags, from, to),
                 Renamed(db.versionTags, from, to), Renamed(db.aliases, from, to)), None)
  }

  // ----- versions -----

  /** One more than the largest version there is, or 1. */
  ghost predicate IsNext(versions: map<Child, Version>, k: Key, n: int) {
    && n >= 1
    && (forall c | c in versions && c.model == k :: c.version < n)
    && (n == 1 || VersionKey(k, n - 1) in versions)
  }

  ghost function CreateVersion(db: Db, k: Key, v: Version, n: int): Step
    requires IsNext(db.versions, k, n)
  {
    if !ValidName(k.name) then Step(db, Some(InvalidName))
    else if k !in db.models then Step(db, Some(NotFound))
    else Step(db.(versions := db.versions[VersionKey(k, n) := v]), None)
  }

  function UpdateVersion(db: Db, k: Key, v: int, description: string, now: int): Step {
    var c := VersionKey(k, v);
    if c !in db.versions then Step(db, Some(NotFound))
    else Step(db.(versions := db.versions[c := db.versions[c].(description := description, updated := now)]), None)
  }

  /** Deleting a version takes its tags and the aliases that point to it with it. */
  function DeleteVersion(db: Db, k: Key, v: int): Step {
    if VersionKey(k, v) !in db.versions then Step(db, Some(NotFound))
    else Step(db.(versions := db.versions - {VersionKey(k, v)},
                  versionTags := map c | c in db.versionTags && !(c.model == k && c.version == v) :: db.versionTags[c],
                  aliases := map c | c in db.aliases && !(c.model == k && db.aliases[c] == v) :: db.aliases[c]), None)
  }

  predicate Replaced(c: Child, x: Version, k: Key, v: int) {
    c.model == k && x.stage == Production && c.version != v
  }

  function ArchiveOthers(versions: map<Child, Version>, k: Key, v: int, now: int): map<Child, Version> {
    map c | c in versions ::
      if Replaced(c, versions[c], k, v) then versions[c].(stage := Archived, updated := now) else versions[c]
  }

  function TransitionStage(db: Db, k: Key, v: int, stage: Stage, archiveExisting: bool, now: int): Step {
    var others := if archiveExisting && stage == Production then ArchiveOthers(db.versions, k, v, now) else db.versions;
    var c := VersionKey(k, v);
    if c !in others then Step(db, Some(NotFound))
    else Step(db.(versions := others[c := others[c].(stage := stage, updated := now)]), None)
  }

  // ----- tags and aliases -----

  function SetModelTag(db: Db, k: Key, key: string, value: string): Step {
    if k !in db.models then Step(db, Some(NotFound))
    else Step(db.(modelTags := db.modelTags[LabelKey(k, key) := value]), None)
  }

  function DeleteModelTag(db: Db, k: Key, key: string): Step {
    if LabelKey(k, key) !in db.modelTags then Step(db, Some(NotFound))
    else Step(db.(modelTags := db.modelTags - {LabelKey(k, key)}), None)
  }

  function SetVersionTag(db: Db, k: Key, v: int, key: string, value: string): Step {
    if VersionKey(k, v) !in db.versions then Step(db, Some(NotFound))
    else Step(db.(versionTags := db.versionTags[Child(k, v, key) := value]), None)
  }

  function DeleteVersionTag(db: Db, k: Key, v: int, key: string): Step {
    if Child(k, v, key) !in db.versionTags then Step(db, Some(NotFound))
    else Step(db.(versionTags := db.versionTags - {Child(k, v, key)}), None)
  }

  function SetAlias(db: Db, k: Key, alias: string, v: int): Step {
    if VersionKey(k, v) !in db.versions then Step(db, Some(NotFound))
    else Step(db.(aliases := db.aliases[LabelKey(k, alias) := v]), None)
  }

  function DeleteAlias(db: Db, k: Key, alias: string): Step {
    if LabelKey(k, alias) !in db.aliases then Step(db, Some(NotFound))
    else Step(db.(aliases := db.aliases - {LabelKey(k, alias)}), None)
  }

  // ----- runs -----

  datatype Op =
    | CreateModelOp(k: Key, m: Model)
    | UpdateModelOp(k: Key, description: string, now: int)
    | DeleteModelOp(k: Key)
    | RenameOp(k: Key, newName: string, now: int)
    | CreateVersionOp(k: Key, x: Version)
    | UpdateVersionOp(k: Key, v: int, description: string, now: int)
    | DeleteVersionOp(k: Key, v: int)
    | TransitionOp(k: Key, v: int, stage: Stage, archiveExisting: bool, now: int)
    | SetModelTagOp(k: Key, tag: string, value: string)
    | DeleteModelTagOp(k: Key, tag: string)
    | SetVersionTagOp(k: Key, v: int, tag: string, value: string)
    | DeleteVersionTagOp(k: Key, v: int, tag: string)
    | SetAliasOp(k: Key, tag: string, v: int)
    | DeleteAliasOp(k: Key, tag: string)

  ghost predicate Next(db: Db, op: Op, s: Step) {
    match op
    case CreateModelOp(k, m) => s == CreateModel(db, k, m)
    case UpdateModelOp(k, d, now) => s == UpdateModel(db, k, d, now)
    case DeleteModelOp(k) => s == DeleteModel(db, k)
    case RenameOp(k, n, now) => s == Rename(db, k, n, now)
    case CreateVersionOp(k, x) => exists n :: IsNext(db.versions, k, n) && s == CreateVersion(db, k, x, n)
    case UpdateVersionOp(k, v, d, now) => s == UpdateVersion(db, k, v, d, now)
    case DeleteVersionOp(k, v) => s == DeleteVersion(db, k, v)
    case TransitionOp(k, v, stage, archive, now) => s == TransitionStage(db, k, v, stage, archive, now)
    case SetModelTagOp(k, l, value) => s == SetModelTag(db, k, l, value)
    case DeleteModelTagOp(k, l) => s == DeleteModelTag(db, k, l)
    case SetVersionTagOp(k, v, l, value) => s == SetVersionTag(db, k, v, l, value)
    case DeleteVersionTagOp(k, v, l) => s == DeleteVersionTag(db, k, v, l)
    case SetAliasOp(k, l, v) => s == SetAlias(db, k, l, v)
    case DeleteAliasOp(k, l) => s == DeleteAlias(db, k, l)
  }

  /** The databases of a run, from the empty one, one after each call. */
  ghost predicate Run(dbs: seq<Db>, ops: seq<Op>) {
    && |dbs| == |ops| + 1 && dbs[0] == EMPTY
    && forall i | 0 <= i < |ops| :: Called(dbs[i], ops[i], dbs[i + 1])
  }

  ghost predicate Called(db: Db, op: Op, after: Db) {
    exists s :: Next(db, op, s) && s.db == after
  }

  // ----- what a rename does -----

  /** Nothing is under a name that no model has, so the new keys are free. */
  lemma {:induction false} RenameCannotCollide(db: Db, from: Key, to: Key)
    requires Sound(db) && to !in db.models
    ensures Free(db.versions, from, to) && Free(db.modelTags, from, to)
    ensures Free(db.versionTags, from, to) && Free(db.aliases, from, to)
  {
  }

  /** Nothing is under the name either before or after, but for the rows moved. */
  ghost predicate Vacant<V>(t: map<Child, V>, k: Key) {
    forall c | c in t :: c.model != k
  }

  /** A rename of a table relabels its rows: each row is where its old key, under the new name, says. */
  lemma {:induction false} RenamedRows<V>(t: map<Child, V>, from: Key, to: Key, c: Child)
    requires from != to && Vacant(t, to)
    ensures c in Renamed(t, from, to) <==> c.model != from && (if c.model == to then c.(model := from) else c) in t
    ensures c in Renamed(t, from, to) ==> Renamed(t, from, to)[c] == t[if c.model == to then c.(model := from) else c]
  {
  }

  lemma {:induction false} RenamedBack<V>(t: map<Child, V>, from: Key, to: Key)
    requires from != to && Vacant(t, to)
    ensures Vacant(Renamed(t, from, to), from)
    ensures Renamed(Renamed(t, from, to), to, from) == t
  {
    var u := Renamed(t, from, to);
    forall c ensures c in u ==> c.model != from {
      RenamedRows(t, from, to, c);
    }
    forall c ensures c in Renamed(u, to, from) <==> c in t {
      RenamedRows(t, from, to, if c.model == from then c.(model := to) else c);
      RenamedRows(u, to, from, c);
    }
    forall c | c in t ensures c in Renamed(u, to, from) && Renamed(u, to, from)[c] == t[c] {
      RenamedRows(t, from, to, if c.model == from then c.(model := to) else c);
      RenamedRows(u, to, from, c);
    }
  }

  lemma {:induction false} NothingUnder(db: Db, k: Key)
    requires Sound(db) && k !in db.models
    ensures Vacant(db.versions, k) && Vacant(db.modelTags, k) && Vacant(db.versionTags, k) && Vacant(db.aliases, k)
  {
  }

  /** Where a row of the renamed model was before. */
  function Before(c: Child, from: Key, to: Key): Child {
    if c.model == to then c.(model := from) else c
  }

  lemma {:induction false} RenameKeepsVersions(db: Db, from: Key, to: Key)
    requires Sound(db) && from in db.models && to !in db.models
    ensures VersionsOk(db.models.Keys - {from} + {to}, Renamed(db.versions, from, to))
  {
  }

  lemma {:induction false} RenameKeepsModelTags(db: Db, from: Key, to: Key)
    requires Sound(db) && from in db.models && to !in db.models
    ensures ModelTagsOk(db.models.Keys - {from} + {to}, Renamed(db.modelTags, from, to))
  {
  }

  lemma {:induction false} RenameKeepsVersionTags(db: Db, from: Key, to: Key)
    requires Sound(db) && from in db.models && to !in db.models
    ensures VersionTagsOk(Renamed(db.versions, from, to), Renamed(db.versionTags, from, to))
  {
    NothingUnder(db, to);
    forall c | c in Renamed(db.versionTags, from, to)
      ensures VersionKey(c.model, c.version) in Renamed(db.versions, from, to)
    {
      RenamedRows(db.versionTags, from, to, c);
      var b := Before(c, from, to);
      assert VersionKey(b.model, b.version) in db.versions;
      RenamedRows(db.versions, from, to, VersionKey(c.model, c.version));
    }
  }

  lemma {:induction false} RenameKeepsAliases(db: Db, from: Key, to: Key)
    requires Sound(db) && from in db.models && to !in db.models
    ensures AliasesOk(Renamed(db.versions, from, to), Renamed(db.aliases, from, to))
  {
    NothingUnder(db, to);
    var aliases := Renamed(db.aliases, from, to);
    forall c | c in aliases
      ensures c.version == 0 && VersionKey(c.model, aliases[c]) in Renamed(db.versions, from, to)
    {
      RenamedRows(db.aliases, from, to, c);
      var b := Before(c, from, to);
      assert VersionKey(b.model, db.aliases[b]) in db.versions;
      RenamedRows(db.versions, from, to, VersionKey(c.model, db.aliases[b]));
    }
  }

  lemma {:induction false} RenameKeepsSound(db: Db, from: Key, newName: string, now: int)
    requires Sound(db)
    ensures Sound(Rename(db, from, newName, now).db)
  {
    var to := from.(name := newName);
    if Rename(db, from, newName, now).error.None? {
      RenameKeepsVersions(db, from, to);
      RenameKeepsModelTags(db, from, to);
      RenameKeepsVersionTags(db, from, to);
      RenameKeepsAliases(db, from, to);
      assert ((db.models - {from})[to := db.models[from].(updated := now)]).Keys == db.models.Keys - {from} + {to};
    }
  }

  /** Renaming a model and renaming it back restores every row; only its update time has changed. */
  lemma {:induction false} RenameThereAndBack(db: Db, from: Key, newName: string, now: int, later: int)
    requires Sound(db) && ValidName(from.name) && Rename(db, from, newName, now).error.None?
    ensures Rename(Rename(db, from, newName, now).db, from.(name := newName), from.name, later) ==
            Step(db.(models := db.models[from := db.models[from].(updated := later)]), None)
  {
    var to := from.(name := newName);
    NothingUnder(db, to);
    RenamedBack(db.versions, from, to);
    RenamedBack(db.modelTags, from, to);
    RenamedBack(db.versionTags, from, to);
    RenamedBack(db.aliases, from, to);
    assert to.(name := from.name) == from;
    var models := (db.models - {from})[to := db.models[from].(updated := now)];
    assert (models - {to})[from := models[to].(updated := later)] ==
      db.models[from := db.models[from].(updated := later)];
  }

  // ----- what every call keeps -----

  lemma {:induction false} DeleteModelKeepsSound(db: Db, k: Key)
    requires Sound(db)
    ensures Sound(DeleteModel(db, k).db)
  {
  }

  lemma {:induction false} DeleteVersionKeepsSound(db: Db, k: Key, v: int)
    requires Sound(db)
    ensures Sound(DeleteVersion(db, k, v).db)
  {
  }

  lemma {:induction false} TransitionKeepsKeys(db: Db, k: Key, v: int, stage: Stage, archiveExisting: bool, now: int)
    ensures var t := TransitionStage(db, k, v, stage, archiveExisting, now).db;
      t.versions.Keys == db.versions.Keys && t == db.(versions := t.versions)
  {
  }

  lemma {:induction false} SameKeysSound(db: Db, t: Db)
    requires Sound(db) && t == db.(versions := t.versions) && t.versions.Keys == db.versions.Keys
    ensures Sound(t)
  {
  }

  lemma {:induction false} TagCallKeepsSound(db: Db, op: Op, s: Step)
    requires Sound(db) && Next(db, op, s)
    requires op.SetModelTagOp? || op.DeleteModelTagOp? || op.SetVersionTagOp? || op.DeleteVersionTagOp? ||
             op.SetAliasOp? || op.DeleteAliasOp?
    ensures Sound(s.db)
  {
  }

  lemma {:induction false} ModelCallKeepsSound(db: Db, op: Op, s: Step)
    requires Sound(db) && Next(db, op, s)
    requires op.CreateModelOp? || op.UpdateModelOp? || op.DeleteModelOp? || op.RenameOp?
    ensures Sound(s.db)
  {
    match op
    case RenameOp(k, n, now) => RenameKeepsSound(db, k, n, now);
    case DeleteModelOp(k) => DeleteModelKeepsSound(db, k);
    case CreateModelOp(_, _) =>
    case UpdateModelOp(_, _, _) =>
  }

  lemma {:induction false} VersionCallKeepsSound(db: Db, op: Op, s: Step)
    requires Sound(db) && Next(db, op, s)
    requires op.CreateVersionOp? || op.UpdateVersionOp? || op.DeleteVersionOp? || op.TransitionOp?
    ensures Sound(s.db)
  {
    match op
    case DeleteVersionOp(k, v) => DeleteVersionKeepsSound(db, k, v);
    case TransitionOp(k, v, stage, archive, now) =>
      TransitionKeepsKeys(db, k, v, stage, archive, now);
      SameKeysSound(db, s.db);
    case UpdateVersionOp(k, v, d, now) => SameKeysSound(db, s.db);
    case CreateVersionOp(k, x) => CreateVersionKeepsSound(db, k, x, s);
  }

  lemma {:induction false} CallKeepsSound(db: Db, op: Op, s: Step)
    requires Sound(db) && Next(db, op, s)
    ensures Sound(s.db)
  {
    if op.CreateModelOp? || op.UpdateModelOp? || op.DeleteModelOp? || op.RenameOp? {
      ModelCallKeepsSound(db, op, s);
    } else if op.CreateVersionOp? || op.UpdateVersionOp? || op.DeleteVersionOp? || op.TransitionOp? {
      VersionCallKeepsSound(db, op, s);
    } else {
      TagCallKeepsSound(db, op, s);
    }
  }

  lemma {:induction false} CreateVersionKeepsSound(db: Db, k: Key, x: Version, s: Step)
    requires Sound(db) && Next(db, CreateVersionOp(k, x), s)
    ensures Sound(s.db)
  {
  }

  /** In every run of calls, failed ones included, no row refers to a model or a version that is not there. */
  lemma {:induction false} RunKeepsSound(dbs: seq<Db>, ops: seq<Op>, i: nat)
    requires Run(dbs, ops) && i < |dbs|
    ensures Sound(dbs[i])
  {
    if i > 0 {
      RunKeepsSound(dbs, ops, i - 1);
      assert Called(dbs[i - 1], ops[i - 1], dbs[i]);
      var s :| Next(dbs[i - 1], ops[i - 1], s) && s.db == dbs[i];
      CallKeepsSound(dbs[i - 1], ops[i - 1], s);
    }
  }

  // ----- version numbers -----

  lemma {:induction false} NextIsUnique(versions: map<Child, Version>, k: Key, m: int, n: int)
    requires IsNext(versions, k, m) && IsNext(versions, k, n)
    requires forall c | c in versions :: c.version >= 1
    ensures m == n
  {
  }

  /**
   * Deleting the newest version frees its number for the next one; deleting another does not. Either
   * way a new version starts without tags and without aliases.
   */
  lemma {:induction false} NewVersionIsBare(db: Db, k: Key, v: int, n: int, m: int)
    requires Sound(db) && VersionKey(k, v) in db.versions && IsNext(db.versions, k, n)
    requires IsNext(DeleteVersion(db, k, v).db.versions, k, m)
    ensures m <= v <==> v == n - 1
    ensures v != n - 1 ==> m == n
    ensures var t := DeleteVersion(db, k, v).db;
      && (forall tag :: Child(k, m, tag) !in t.versionTags)
      && (forall alias | LabelKey(k, alias) in t.aliases :: t.aliases[LabelKey(k, alias)] != m)
  {
    var t := DeleteVersion(db, k, v).db;
    DeleteVersionKeepsSound(db, k, v);
    assert VersionKey(k, m) !in t.versions;
    if v != n - 1 {
      if n > 1 {
        assert VersionKey(k, n - 1) in t.versions;
      }
      NextIsUnique(t.versions, k, m, n);
    }
  }

  // ----- stages -----

  /** A transition that fails changes nothing, though it archives other versions before it finds out. */
  lemma {:induction false} TransitionFailsCleanly(db: Db, k: Key, v: int, stage: Stage, archiveExisting: bool, now: int)
    ensures var s := TransitionStage(db, k, v, stage, archiveExisting, now);
      s.error.Some? <==> VersionKey(k, v) !in db.versions
    ensures var s := TransitionStage(db, k, v, stage, archiveExisting, now);
      s.error.Some? ==> s == Step(db, Some(NotFound))
  {
  }

  /**
   * Promoting a version with the others archived leaves it as the one version of its model in
   * Production. Versions of other models, and versions in other stages, keep their stage.
   */
  lemma {:induction false} OneInProduction(db: Db, k: Key, v: int, now: int, c: Child)
    requires Sound(db) && VersionKey(k, v) in db.versions && c in db.versions
    ensures var t := TransitionStage(db, k, v, Production, true, now).db;
      && c in t.versions
      && (c.model == k ==> (t.versions[c].stage == Production <==> c.version == v))
      && (c.model != k || (db.versions[c].stage != Production && c.version != v) ==> t.versions[c] == db.versions[c])
  {
  }
}
