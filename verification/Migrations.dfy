/** The start-up classification of a database's migration histories, `migration-core/src/validate.rs`. */
module Migrations {
  type Version = string

  /** What a build believes exists. */
  datatype Build = Build(legacy: seq<Version>, core: seq<Version>, saas: seq<Version>,
                         coreBaseline: Version, saasBaseline: Version)

  /** The rows of the three history tables; an absent table has none. */
  datatype Database = Database(legacy: seq<Version>, core: seq<Version>, saas: seq<Version>)

  datatype Track = Core | Saas

  datatype Reason =
    | OtherEdition(applied: nat)
    | NewerBuild(track: Track, version: Version)
    | InterruptedBridge
    | UnknownLegacy(version: Version)
    | IncompleteLegacy(missing: nat, first: Version)

  datatype Kind = Empty | Legacy | Bridged | Tracked | Divergent(reason: Reason)

  // --------------------------------------------------------------------------------------------
  // Classification
  // --------------------------------------------------------------------------------------------

  /** The versions of the first list that the second lacks, in order. */
  function Lacking(versions: seq<Version>, known: seq<Version>): (lacking: seq<Version>)
    ensures lacking == [] <==> Covers(known, versions)
    ensures forall v :: v in lacking ==> v in versions && v !in known
  {
    if versions == [] then []
    else
      assert forall v :: v in versions <==> v == versions[0] || v in versions[1..];
      if versions[0] in known then Lacking(versions[1..], known)
      else
        var rest := Lacking(versions[1..], known);
        assert ([versions[0]] + rest)[0] == versions[0];
        [versions[0]] + rest
  }

  predicate Covers(known: seq<Version>, versions: seq<Version>) {
    forall v :: v in versions ==> v in known
  }

  function Validate(build: Build, db: Database): Kind {
    var unknownCore := Lacking(db.core, build.core);
    var unknownSaas := Lacking(db.saas, build.saas);
    if build.legacy == [] && db.legacy != [] then Divergent(OtherEdition(|db.legacy|))
    else if unknownCore != [] then Divergent(NewerBuild(Core, unknownCore[0]))
    else if unknownSaas != [] then Divergent(NewerBuild(Saas, unknownSaas[0]))
    else if db.core != [] || db.saas != [] then
      if db.legacy != [] && (db.core == [] || db.saas == []) then Divergent(InterruptedBridge)
      else if db.legacy != [] && build.coreBaseline in db.core && build.saasBaseline in db.saas then Bridged
      else Tracked
    else if db.legacy == [] then Empty
    else
      var unknown := Lacking(db.legacy, build.legacy);
      var missing := Lacking(build.legacy, db.legacy);
      if unknown != [] then Divergent(UnknownLegacy(unknown[0]))
      else if missing != [] then Divergent(IncompleteLegacy(|missing|, missing[0]))
      else Legacy
  }

  predicate SameVersions(a: seq<Version>, b: seq<Version>) {
    Covers(a, b) && Covers(b, a)
  }

  predicate HasTracks(db: Database) {
    db.core != [] || db.saas != []
  }

  predicate Knows(build: Build, db: Database) {
    Covers(build.core, db.core) && Covers(build.saas, db.saas)
  }

  /** The histories are ones this build can continue from. */
  predicate Legible(build: Build, db: Database) {
    && (build.legacy == [] ==> db.legacy == [])
    && Knows(build, db)
    && (db.legacy != [] ==>
          if HasTracks(db) then db.core != [] && db.saas != [] else SameVersions(db.legacy, build.legacy))
  }

  /** Each verdict, and exactly when it is given. */
  lemma {:induction false} Verdicts(build: Build, db: Database)
    ensures Validate(build, db).Divergent? <==> !Legible(build, db)
    ensures Validate(build, db).Empty? <==> db == Database([], [], [])
    ensures Validate(build, db).Legacy? <==>
              !HasTracks(db) && db.legacy != [] && SameVersions(db.legacy, build.legacy)
    ensures Validate(build, db).Bridged? <==>
              Legible(build, db) && db.legacy != [] && build.coreBaseline in db.core && build.saasBaseline in db.saas
  {
    assert db.legacy != [] ==> db.legacy[0] in db.legacy;
    assert db.core == [] ==> build.coreBaseline !in db.core;
  }

  /** The verdict is about which versions are there: neither their order nor their repetition matters. */
  lemma {:induction false} OrderDoesNotMatter(build: Build, a: Database, b: Database)
    requires SameVersions(a.legacy, b.legacy) && SameVersions(a.core, b.core) && SameVersions(a.saas, b.saas)
    ensures Validate(build, a) == Validate(build, b)
         || (Validate(build, a).Divergent? && Validate(build, b).Divergent?)
  {
    SameEmptiness(a.legacy, b.legacy);
    SameEmptiness(a.core, b.core);
    SameEmptiness(a.saas, b.saas);
    Verdicts(build, a);
    Verdicts(build, b);
    hide Validate;
    assert SameVersions(a.legacy, build.legacy) <==> SameVersions(b.legacy, build.legacy);
  }

  lemma {:induction false} SameEmptiness(a: seq<Version>, b: seq<Version>)
    requires SameVersions(a, b)
    ensures a == [] <==> b == []
  {
    assert a != [] ==> a[0] in a;
    assert b != [] ==> b[0] in b;
  }

  // --------------------------------------------------------------------------------------------
  // Upgrades
  // --------------------------------------------------------------------------------------------

  /** What is running, and the database under it. */
  datatype Deployment = Deployment(build: Build, db: Database)

  predicate WellFormed(build: Build) {
    build.coreBaseline in build.core && build.saasBaseline in build.saas
  }

  /** A release that adds versions to the two tracks and changes nothing else. */
  predicate Extends(newer: Build, older: Build) {
    && newer.legacy == older.legacy
    && newer.coreBaseline == older.coreBaseline && newer.saasBaseline == older.saasBaseline
    && Covers(newer.core, older.core) && Covers(newer.saas, older.saas)
  }

  ghost predicate Adds(before: seq<Version>, v: Version, after: seq<Version>) {
    forall x :: x in before || x == v <==> x in after
  }

  /** A migrator may run once no bridge is due. */
  predicate MayMigrate(d: Deployment) {
    !Validate(d.build, d.db).Legacy?
  }

  /** One legal step: a track applies one version its build knows, the bridge records both baselines at once,
      or a newer release is deployed. The rows come back in any order. */
  ghost predicate Step(before: Deployment, after: Deployment) {
    var b, a := before.db, after.db;
    || (&& after.build == before.build && MayMigrate(before)
        && a.legacy == b.legacy && a.saas == b.saas
        && exists v :: v in before.build.core && Adds(b.core, v, a.core))
    || (&& after.build == before.build && MayMigrate(before)
        && a.legacy == b.legacy && a.core == b.core
        && exists v :: v in before.build.saas && Adds(b.saas, v, a.saas))
    || (&& after.build == before.build && Validate(before.build, b).Legacy?
        && a == Database(b.legacy, [before.build.coreBaseline], [before.build.saasBaseline]))
    || (a == b && Extends(after.build, before.build))
  }

  ghost predicate IsRun(run: seq<Deployment>) {
    && run != [] && WellFormed(run[0].build)
    && (Validate(run[0].build, run[0].db).Empty? || Validate(run[0].build, run[0].db).Legacy?)
    && forall i :: 0 < i < |run| ==> Step(run[i - 1], run[i])
  }

  /** What holds along a run: a fresh database has only tracks; a legacy one has its whole legacy history and
      either no track or both baselines. */
  predicate Invariant(first: Deployment, d: Deployment) {
    && WellFormed(d.build) && Knows(d.build, d.db)
    && d.db.legacy == first.db.legacy && d.build.legacy == first.build.legacy
    && d.build.coreBaseline == first.build.coreBaseline && d.build.saasBaseline == first.build.saasBaseline
    && (d.db.legacy != [] ==>
          && SameVersions(d.db.legacy, d.build.legacy)
          && (HasTracks(d.db) ==> d.build.coreBaseline in d.db.core && d.build.saasBaseline in d.db.saas))
  }

  lemma {:induction false} StepKeepsInvariant(first: Deployment, before: Deployment, after: Deployment)
    requires Invariant(first, before) && Step(before, after)
    ensures Invariant(first, after)
    ensures HasTracks(before.db) ==> HasTracks(after.db)
  {
    Verdicts(before.build, before.db);
    hide Validate;
    if HasTracks(before.db) {
      TracksStay(before.db.core, after.db.core);
      TracksStay(before.db.saas, after.db.saas);
    }
  }

  lemma {:induction false} TracksStay(before: seq<Version>, after: seq<Version>)
    ensures Covers(after, before) ==> (before != [] ==> after != [])
  {
    if before != [] && Covers(after, before) {
      assert before[0] in after;
    }
  }

  lemma {:induction false} InvariantAt(run: seq<Deployment>, i: nat)
    requires IsRun(run) && i < |run|
    ensures Invariant(run[0], run[i])
  {
    if i == 0 {
      Verdicts(run[0].build, run[0].db);
    } else {
      InvariantAt(run, i - 1);
      StepKeepsInvariant(run[0], run[i - 1], run[i]);
    }
  }

  /** Along every legal run the verdict is never divergent: a fresh database is empty until its first version
      and tracked from then on; a legacy one is legacy until the bridge and bridged from then on. */
  lemma {:induction false} RunsAreNeverDivergent(run: seq<Deployment>, i: nat)
    requires IsRun(run) && i < |run|
    ensures var kind := Validate(run[i].build, run[i].db);
            kind == if run[0].db.legacy == [] then (if HasTracks(run[i].db) then Tracked else Empty)
                    else if HasTracks(run[i].db) then Bridged else Legacy
  {
    InvariantAt(run, i);
    var build, db := run[i].build, run[i].db;
    Verdicts(build, db);
    assert db.core == [] ==> build.coreBaseline !in db.core;
    assert db.saas == [] ==> build.saasBaseline !in db.saas;
    if db.legacy != [] && build.legacy == [] {
      SameEmptiness(db.legacy, build.legacy);
    }
  }

  /** Progress is never lost: once a track has a version, no later state of the run is empty or legacy. */
  lemma {:induction false} NoWayBack(run: seq<Deployment>, i: nat, j: nat)
    requires IsRun(run) && i <= j < |run|
    requires HasTracks(run[i].db)
    ensures HasTracks(run[j].db)
  {
    if i < j {
      NoWayBack(run, i, j - 1);
      InvariantAt(run, j - 1);
      StepKeepsInvariant(run[0], run[j - 1], run[j]);
    }
  }

  /** Rolling the code back to an older release is accepted exactly when that release knows every version
      the tracks have applied, and then the verdict is unchanged. */
  lemma {:induction false} RollbackWindow(run: seq<Deployment>, i: nat, older: Build)
    requires IsRun(run) && i < |run| && Extends(run[i].build, older)
    ensures Validate(older, run[i].db).Divergent? <==> !Knows(older, run[i].db)
    ensures Knows(older, run[i].db) ==> Validate(older, run[i].db) == Validate(run[i].build, run[i].db)
  {
    InvariantAt(run, i);
    RunsAreNeverDivergent(run, i);
    Verdicts(older, run[i].db);
    Verdicts(run[i].build, run[i].db);
    hide IsRun, Extends, Invariant, Step;
  }

  /** A bridge that recorded only one of its baselines is caught. */
  lemma {:induction false} HalfABridgeIsCaught(build: Build, db: Database, track: Track)
    requires WellFormed(build) && Validate(build, db).Legacy?
    ensures Validate(build, if track.Core? then db.(core := [build.coreBaseline])
                            else db.(saas := [build.saasBaseline])) == Divergent(InterruptedBridge)
  {
    Verdicts(build, db);
    assert db.core == [] && db.saas == [];
    if build.legacy == [] {
      SameEmptiness(db.legacy, build.legacy);
    }
  }

  /** A public build accepts a database exactly when it has no legacy history, nothing in the SaaS track that
      the build does not list, and only core versions the build knows. */
  lemma {:induction false} PublicBuild(build: Build, db: Database)
    requires build.legacy == []
    ensures !Validate(build, db).Divergent? <==> db.legacy == [] && Knows(build, db)
    ensures db.legacy != [] ==> Validate(build, db) == Divergent(OtherEdition(|db.legacy|))
  {
    Verdicts(build, db);
  }

  /** Once both tracks exist the content of the legacy history is not looked at: losing or gaining legacy
      versions goes unnoticed as long as one is left. */
  lemma {:induction false} TracksHideLegacy(build: Build, db: Database, other: seq<Version>)
    requires db.core != [] && db.saas != [] && db.legacy != [] && other != [] && build.legacy != []
    ensures Validate(build, db.(legacy := other)) == Validate(build, db)
  {
  }
}
