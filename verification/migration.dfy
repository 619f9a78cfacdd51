/** Migration flags and config schemas: what the controllers announce when a
    Fabric version changes, against the schema the API types pick for it. */
module Migration {
  import opened Text
  import opened Versions

  // The thresholds as they parse; see ThresholdsParse.
  const V1_4_9 := Version(1, 4, 9, 0)
  const V2_2_1 := Version(2, 2, 1, 0)
  const V2_4_1 := Version(2, 4, 1, 0)
  const V2_5_1 := Version(2, 5, 1, 0)

  /** The version a.b.c as it is written. */
  function Dotted(a: nat, b: nat, c: nat): string
    requires a <= 9 && b <= 9 && c <= 9
  {
    [DigitChar(a), '.', DigitChar(b), '.', DigitChar(c)]
  }

  lemma ThresholdsParse()
    ensures Dotted(1, 4, 9) == "1.4.9" && Parse("1.4.9") == V1_4_9
    ensures Dotted(2, 2, 1) == "2.2.1" && Parse("2.2.1") == V2_2_1
    ensures Dotted(2, 4, 1) == "2.4.1" && Parse("2.4.1") == V2_4_1
    ensures Dotted(2, 5, 1) == "2.5.1" && Parse("2.5.1") == V2_5_1
  {
    ParseDigits(Dotted(1, 4, 9), 1, 4, 9);
    ParseDigits(Dotted(2, 2, 1), 2, 2, 1);
    ParseDigits(Dotted(2, 4, 1), 2, 4, 1);
    ParseDigits(Dotted(2, 5, 1), 2, 5, 1);
  }

  /** The two readings of a Fabric version string that decisions are made on: the
      release it belongs to, and the version it compares as.  They treat a "v"
      prefix differently. */
  datatype Fabric = Fabric(release: Release, v: Version)

  function Read(version: string): Fabric {
    Fabric(MajorRelease(version), Parse(version))
  }

  predicate AtLeast(f: Fabric, threshold: Version) {
    f.v.EqualWithoutTag(threshold) || f.v.GreaterThan(threshold)
  }

  datatype Schema = SchemaV1 | SchemaV2 | SchemaV24 | SchemaV25

  /** The schema an orderer's config override is read with. */
  function OrdererSchema(f: Fabric): Schema {
    match f.release
    case V2 =>
      if AtLeast(f, V2_5_1) then SchemaV25
      else if AtLeast(f, V2_4_1) then SchemaV24
      else SchemaV2
    case V1 => SchemaV1
  }

  /** The schema a peer's config override is read with. */
  function PeerSchema(f: Fabric): Schema {
    match f.release
    case V2 => if AtLeast(f, V2_5_1) then SchemaV25 else SchemaV2
    case V1 => SchemaV1
  }

  function Rank(s: Schema): nat {
    match s
    case SchemaV1 => 0
    case SchemaV2 => 1
    case SchemaV24 => 2
    case SchemaV25 => 3
  }

  /** A major of 3 or above compares as past 2.5.1, yet is taken for a V1 release. */
  predicate Beyond(f: Fabric) {
    f.v.major >= 3
  }

  datatype Flags = Flags(toV2: bool, toV24: bool, toV25: bool, reenrollTls: bool)

  /** The orderer's flags in terms of schemas: each is raised on crossing the
      boundary it names, and two also on a move from a V2 release beyond major 2,
      where no schema boundary of theirs is crossed. */
  function OrdererFlags(before: Fabric, after: Fabric): Flags {
    var from, to := OrdererSchema(before), OrdererSchema(after);
    Flags(from == SchemaV1 && to != SchemaV1,
          from in {SchemaV1, SchemaV2} && to == SchemaV24,
          (from != SchemaV25 && to == SchemaV25) || (from in {SchemaV2, SchemaV24} && Beyond(after)),
          (from in {SchemaV1, SchemaV2} && to in {SchemaV24, SchemaV25}) || (from == SchemaV2 && Beyond(after)))
  }

  /** The peer's flags in terms of schemas.  Its V24 flag is about 2.4.1, which is
      no boundary of the peer's own schemas. */
  function PeerFlags(before: Fabric, after: Fabric): Flags {
    var from, to := PeerSchema(before), PeerSchema(after);
    Flags(from == SchemaV1 && to != SchemaV1,
          (from == SchemaV1 && OrdererSchema(after) in {SchemaV24, SchemaV25}) || OrdererSchema(before) == SchemaV2,
          (from != SchemaV25 && to == SchemaV25) || (from == SchemaV2 && Beyond(after)),
          false)
  }

  // ------------------------------------------------- the blocks of UpdateFunc

  /** The two readings of one string never drift further apart than this. */
  predicate Coherent(f: Fabric) {
    && InRange(f.v)
    && (f.v.major == 2 ==> f.release == V2)
    && (f.v.major == 1 || f.v.major >= 3 ==> f.release == V1)
  }

  lemma ReadIsCoherent(version: string)
    ensures Coherent(Read(version))
    ensures version == "" ==> Read(version).release == V1
  {
    ParseInRange(version);
    MajorReleaseAgrees(version);
    SplitAtom("", '.');
  }

  lemma Levels(f: Fabric)
    requires Coherent(f)
    ensures f.release == V2 && f.v.LessThan(V2_4_1) <==> OrdererSchema(f) == SchemaV2
    ensures f.release == V2 && f.v.LessThan(V2_5_1) <==> OrdererSchema(f) in {SchemaV2, SchemaV24}
    ensures AtLeast(f, V2_5_1) <==> OrdererSchema(f) == SchemaV25 || Beyond(f)
    ensures AtLeast(f, V2_4_1) <==> OrdererSchema(f) in {SchemaV24, SchemaV25} || Beyond(f)
    ensures OrdererSchema(f) == SchemaV1 <==> f.release == V1
  {
  }

  /** The migration block of the orderer's UpdateFunc. */
  method OrdererMigrationBlock(unset: bool, before: Fabric, after: Fabric) returns (update: Flags)
    requires Coherent(before) && Coherent(after) && (unset ==> before.release == V1)
    ensures update == OrdererFlags(before, after)
  {
    Levels(before);
    Levels(after);
    update := Flags(false, false, false, false);
    if (unset || before.release == V1) && after.release == V2 {
      update := update.(toV2 := true);
      if AtLeast(after, V2_5_1) {
        update := update.(toV25 := true, reenrollTls := true);
      } else if AtLeast(after, V2_4_1) {
        update := update.(toV24 := true, reenrollTls := true);
      }
    }
    if before.release == V2 && before.v.LessThan(V2_4_1) {
      if AtLeast(after, V2_5_1) {
        update := update.(toV25 := true, reenrollTls := true);
      } else if AtLeast(after, V2_4_1) {
        update := update.(toV24 := true, reenrollTls := true);
      }
    }
    if before.release == V2 && before.v.LessThan(V2_5_1) && AtLeast(after, V2_5_1) {
      update := update.(toV25 := true);
    }
  }

  /** The migration block of the peer's UpdateFunc. */
  method PeerMigrationBlock(unset: bool, before: Fabric, after: Fabric) returns (update: Flags)
    requires Coherent(before) && Coherent(after) && (unset ==> before.release == V1)
    ensures update == PeerFlags(before, after)
  {
    Levels(before);
    Levels(after);
    update := Flags(false, false, false, false);
    if (unset || before.release == V1) && after.release == V2 {
      update := update.(toV2 := true);
      if AtLeast(after, V2_5_1) {
        update := update.(toV24 := true);
        update := update.(toV25 := true);
      } else if AtLeast(after, V2_4_1) {
        update := update.(toV24 := true);
      }
    }
    if before.release == V2 && before.v.LessThan(V2_4_1) {
      update := update.(toV24 := true);
      if AtLeast(after, V2_5_1) {
        update := update.(toV25 := true);
      }
    }
    if before.release == V2 && before.v.LessThan(V2_5_1) {
      if AtLeast(after, V2_5_1) {
        update := update.(toV25 := true);
      }
    }
  }

  /** The flags the controllers raise, for every pair of version strings. */
  method MigrationFlags(before: string, after: string) returns (orderer: Flags, peer: Flags)
    ensures orderer == OrdererFlags(Read(before), Read(after))
    ensures peer == PeerFlags(Read(before), Read(after))
  {
    ReadIsCoherent(before);
    ReadIsCoherent(after);
    orderer := OrdererMigrationBlock(before == "", Read(before), Read(after));
    peer := PeerMigrationBlock(before == "", Read(before), Read(after));
  }

  // --------------------------------------------------- flags against schemas

  /** Over all pairs of strings, V2 and V24 always agree with the schemas and V24
      never comes with V25; V25 agrees exactly unless the move goes from a V2
      release below 2.5.1 to a major of 3 or above. */
  lemma OrdererFlagsAgree(before: string, after: string)
    ensures var source, target := Read(before), Read(after);
            var f, from, to := OrdererFlags(source, target), OrdererSchema(source), OrdererSchema(target);
            && (f.toV2 <==> from == SchemaV1 && to != SchemaV1)
            && (f.toV24 <==> Rank(from) < 2 && to == SchemaV24)
            && !(f.toV24 && f.toV25)
            && ((f.toV25 <==> from != SchemaV25 && to == SchemaV25) <==> !(from in {SchemaV2, SchemaV24} && Beyond(target)))
            && ((f.reenrollTls <==> Rank(from) < 2 <= Rank(to)) <==> !(from == SchemaV2 && Beyond(target)))
  {
    ReadIsCoherent(after);
    Levels(Read(after));
  }

  /** The same for the peer.  Its V24 flag means "reaches 2.4.1 from below"
      exactly unless the peer leaves a 2.x below 2.4.1 for anything below it. */
  lemma PeerFlagsAgree(before: string, after: string)
    ensures var source, target := Read(before), Read(after);
            var f, from, to := PeerFlags(source, target), PeerSchema(source), PeerSchema(target);
            && (f.toV2 <==> from == SchemaV1 && to != SchemaV1)
            && ((f.toV25 <==> from != SchemaV25 && to == SchemaV25) <==> !(from == SchemaV2 && Beyond(target)))
            && ((f.toV24 <==> Rank(OrdererSchema(source)) < 2 <= Rank(OrdererSchema(target)))
                <==> !(OrdererSchema(source) == SchemaV2 && Rank(OrdererSchema(target)) < 2))
  {
    ReadIsCoherent(before);
    ReadIsCoherent(after);
    Levels(Read(before));
    Levels(Read(after));
  }

  lemma ReadDigits(a: nat, b: nat, c: nat)
    requires a <= 9 && b <= 9 && c <= 9
    ensures Read(Dotted(a, b, c)) == Fabric(if a == 2 then V2 else V1, Version(a, b, c, 0))
    ensures !VPrefixed(Dotted(a, b, c))
  {
    ParseDigits(Dotted(a, b, c), a, b, c);
    MajorReleaseAgrees(Dotted(a, b, c));
  }

  /** Both departures happen: 2.2.0 to 3.0.0, and for the peer 2.2.0 to 2.2.1, are
      among these. */
  lemma FlagsCanDisagree(b: nat, c: nat, d: nat, major: nat)
    requires b <= 3 && c <= 9 && d <= 9 && 3 <= major <= 9
    ensures var old2x, new2x, new3x := Read(Dotted(2, b, c)), Read(Dotted(2, b, d)), Read(Dotted(major, 0, 0));
            && OrdererFlags(old2x, new3x).toV25 && OrdererFlags(old2x, new3x).reenrollTls && OrdererSchema(new3x) == SchemaV1
            && PeerFlags(old2x, new3x).toV25 && PeerSchema(new3x) == SchemaV1
            && PeerFlags(old2x, new2x).toV24 && Rank(OrdererSchema(new2x)) < 2
  {
    ReadDigits(2, b, c);
    ReadDigits(2, b, d);
    ReadDigits(major, 0, 0);
    ReadIsCoherent(Dotted(2, b, c));
    ReadIsCoherent(Dotted(2, b, d));
    ReadIsCoherent(Dotted(major, 0, 0));
    DisagreeOn(Read(Dotted(2, b, c)), Read(Dotted(2, b, d)), Read(Dotted(major, 0, 0)));
  }

  lemma DisagreeOn(old2x: Fabric, new2x: Fabric, new3x: Fabric)
    requires Coherent(old2x) && Coherent(new2x) && Coherent(new3x)
    requires old2x.release == V2 && old2x.v.LessThan(V2_4_1)
    requires new2x.release == V2 && new2x.v.LessThan(V2_4_1)
    requires new3x.release == V1 && Beyond(new3x)
    ensures OrdererFlags(old2x, new3x).toV25 && OrdererFlags(old2x, new3x).reenrollTls && OrdererSchema(new3x) == SchemaV1
    ensures PeerFlags(old2x, new3x).toV25 && PeerSchema(new3x) == SchemaV1
    ensures PeerFlags(old2x, new2x).toV24 && Rank(OrdererSchema(new2x)) < 2
  {
  }

  // ------------------------------------------------------------ upgrade paths

  /** The versions an upgrade path is about: no "v" prefix, major at most 2. */
  predicate Ordinary(version: string) {
    !VPrefixed(version) && Parse(version).major <= 2
  }

  predicate UpgradePath(path: seq<string>) {
    && path != []
    && (forall i | 0 <= i < |path| :: Ordinary(path[i]))
    && (forall i | 0 < i < |path| :: !Parse(path[i]).LessThan(Parse(path[i - 1])))
  }

  predicate OrdinaryFabric(f: Fabric) {
    InRange(f.v) && f.v.major <= 2 && (f.v.major == 2 <==> f.release == V2)
  }

  /** A step of an upgrade path, as it is read. */
  predicate Upgrade(before: Fabric, after: Fabric) {
    OrdinaryFabric(before) && OrdinaryFabric(after) && !after.v.LessThan(before.v)
  }

  predicate Upgrades(path: seq<Fabric>) {
    path != [] && forall i | 0 < i < |path| :: Upgrade(path[i - 1], path[i])
  }

  function ReadAll(path: seq<string>): (fs: seq<Fabric>)
    ensures |fs| == |path| && forall i | 0 <= i < |path| :: fs[i] == Read(path[i])
  {
    seq(|path|, i requires 0 <= i < |path| => Read(path[i]))
  }

  lemma OrdinaryReads(version: string)
    requires Ordinary(version)
    ensures OrdinaryFabric(Read(version))
  {
    ParseInRange(version);
    MajorReleaseAgrees(version);
  }

  lemma UpgradePathReads(path: seq<string>)
    requires UpgradePath(path)
    ensures Upgrades(ReadAll(path))
  {
    forall i | 0 < i < |path| ensures Upgrade(ReadAll(path)[i - 1], ReadAll(path)[i]) {
      OrdinaryReads(path[i - 1]);
      OrdinaryReads(path[i]);
    }
  }

  /** How many steps of a path satisfy `flag`. */
  function Count<T>(path: seq<T>, flag: (T, T) -> bool): nat {
    if |path| <= 1 then 0 else (if flag(path[0], path[1]) then 1 else 0) + Count(path[1..], flag)
  }

  lemma RankIsMonotone(before: Fabric, after: Fabric)
    requires Upgrade(before, after)
    ensures Rank(OrdererSchema(before)) <= Rank(OrdererSchema(after))
  {
  }

  predicate Crosses(before: Fabric, after: Fabric, rank: nat) {
    Rank(OrdererSchema(before)) < rank <= Rank(OrdererSchema(after))
  }

  /** A flag raised exactly when a schema rank is reached is raised once on a
      path that reaches it and never on any other. */
  lemma {:induction false} CrossedOnce(path: seq<Fabric>, flag: (Fabric, Fabric) -> bool, rank: nat)
    requires Upgrades(path)
    requires forall f, g | Upgrade(f, g) :: flag(f, g) <==> Crosses(f, g, rank)
    ensures Rank(OrdererSchema(path[0])) <= Rank(OrdererSchema(path[|path| - 1]))
    ensures Count(path, flag) == if Crosses(path[0], path[|path| - 1], rank) then 1 else 0
  {
    if |path| > 1 {
      assert Upgrade(path[0], path[1]);
      RankIsMonotone(path[0], path[1]);
      assert forall i | 0 < i < |path[1..]| :: path[1..][i] == path[i + 1];
      CrossedOnce(path[1..], flag, rank);
    }
  }

  lemma FlagsAreCrossings(f: Fabric, g: Fabric)
    requires Upgrade(f, g)
    ensures OrdererFlags(f, g).toV2 <==> Crosses(f, g, 1)
    ensures OrdererFlags(f, g).reenrollTls <==> Crosses(f, g, 2)
    ensures OrdererFlags(f, g).toV25 <==> Crosses(f, g, 3)
    ensures PeerFlags(f, g).toV25 <==> Crosses(f, g, 3)
  {
  }

  predicate StopsAt(path: seq<Fabric>, schema: Schema) {
    exists i :: 0 <= i < |path| && OrdererSchema(path[i]) == schema
  }

  /** The orderer's V24 flag is raised once on a path that stops at a V24 schema,
      unless it starts there or beyond, and never on any other: a path may jump
      over it. */
  lemma {:induction false} V24Once(path: seq<Fabric>, flag: (Fabric, Fabric) -> bool)
    requires Upgrades(path)
    requires forall f, g | Upgrade(f, g) :: flag(f, g) <==> OrdererFlags(f, g).toV24
    ensures Count(path, flag) == if Rank(OrdererSchema(path[0])) < 2 && StopsAt(path, SchemaV24) then 1 else 0
    ensures StopsAt(path, SchemaV24) ==> Rank(OrdererSchema(path[0])) <= 2
  {
    if |path| > 1 {
      assert Upgrade(path[0], path[1]);
      RankIsMonotone(path[0], path[1]);
      assert forall i | 0 < i < |path[1..]| :: path[1..][i] == path[i + 1];
      V24Once(path[1..], flag);
      assert StopsAt(path[1..], SchemaV24) || OrdererSchema(path[0]) == SchemaV24 <==> StopsAt(path, SchemaV24) by {
        if i :| 0 <= i < |path| && OrdererSchema(path[i]) == SchemaV24 && i > 0 {
          assert path[1..][i - 1] == path[i];
        }
        if i :| 0 <= i < |path[1..]| && OrdererSchema(path[1..][i]) == SchemaV24 {
          assert path[i + 1] == path[1..][i];
        }
      }
      if OrdererSchema(path[1]) == SchemaV24 {
        assert OrdererSchema(path[1..][0]) == SchemaV24;
      }
    }
  }

  /** Along any upgrade path each migration happens once if the path crosses its
      boundary and otherwise never: to V2, to V25 (orderer and peer), and the
      orderer's TLS re-enrolment for 2.4.1; to V24 if the path stops there. */
  lemma OncePerUpgradePath(path: seq<string>)
    requires UpgradePath(path)
    ensures var fs := ReadAll(path);
            var f, g := Read(path[0]), Read(path[|path| - 1]);
            && Count(fs, (f, g) => OrdererFlags(f, g).toV2) == (if Crosses(f, g, 1) then 1 else 0)
            && Count(fs, (f, g) => OrdererFlags(f, g).reenrollTls) == (if Crosses(f, g, 2) then 1 else 0)
            && Count(fs, (f, g) => OrdererFlags(f, g).toV25) == (if Crosses(f, g, 3) then 1 else 0)
            && Count(fs, (f, g) => PeerFlags(f, g).toV25) == (if Crosses(f, g, 3) then 1 else 0)
            && Count(fs, (f, g) => OrdererFlags(f, g).toV24)
               == (if Rank(OrdererSchema(f)) < 2 && StopsAt(fs, SchemaV24) then 1 else 0)
  {
    UpgradePathReads(path);
    forall f, g | Upgrade(f, g)
      ensures OrdererFlags(f, g).toV2 <==> Crosses(f, g, 1)
      ensures OrdererFlags(f, g).reenrollTls <==> Crosses(f, g, 2)
      ensures OrdererFlags(f, g).toV25 <==> Crosses(f, g, 3)
      ensures PeerFlags(f, g).toV25 <==> Crosses(f, g, 3)
    {
      FlagsAreCrossings(f, g);
    }
    CrossedOnce(ReadAll(path), (f, g) => OrdererFlags(f, g).toV2, 1);
    CrossedOnce(ReadAll(path), (f, g) => OrdererFlags(f, g).reenrollTls, 2);
    CrossedOnce(ReadAll(path), (f, g) => OrdererFlags(f, g).toV25, 3);
    CrossedOnce(ReadAll(path), (f, g) => PeerFlags(f, g).toV25, 3);
    V24Once(ReadAll(path), (f, g) => OrdererFlags(f, g).toV24);
  }

  // -------------------------------------------- the 1.4.9 / 2.2.1 TLS secret

  predicate EqualOrGreater(f: Fabric, threshold: Version) {
    f.v.Equal(threshold) || f.v.GreaterThan(threshold)
  }

  /** Whether a version change asks for the TLS secret to be created. */
  predicate TlsSecretRule(changed: bool, unsupported: bool, before: Fabric, after: Fabric) {
    changed &&
    if unsupported || (before.release == V1 && before.v.LessThan(V1_4_9)) then
      match after.release
      case V1 => EqualOrGreater(after, V1_4_9)
      case V2 => EqualOrGreater(after, V2_2_1)
    else
      before.release == V2 && before.v.LessThan(V2_2_1) && EqualOrGreater(after, V2_2_1)
  }

  predicate TlsSecretNeeded(before: string, after: string) {
    TlsSecretRule(before != after, before == "unsupported", Read(before), Read(after))
  }

  /** Where a version stands with respect to the TLS secret. */
  datatype TlsStage = Before149 | Since149 | Before221 | Since221

  function Stage(f: Fabric): TlsStage {
    match f.release
    case V1 => if f.v.LessThan(V1_4_9) then Before149 else Since149
    case V2 => if f.v.LessThan(V2_2_1) then Before221 else Since221
  }

  predicate GainsTls(from: TlsStage, to: TlsStage) {
    (from == Before149 && to in {Since149, Since221}) || (from == Before221 && to == Since221)
  }

  lemma UnsupportedIsOld()
    ensures Stage(Read("unsupported")) == Before149
  {
    var s := "unsupported";
    assert s[0] == 'u';
    WordMajorIsZero(s);
    OrdinaryReads(s);
  }

  lemma TlsRuleByStage(changed: bool, unsupported: bool, f: Fabric, g: Fabric)
    requires OrdinaryFabric(f) && OrdinaryFabric(g)
    requires !changed ==> f == g
    requires unsupported ==> Stage(f) == Before149
    ensures TlsSecretRule(changed, unsupported, f, g) <==> GainsTls(Stage(f), Stage(g))
  {
  }

  /** It is asked for exactly on entering 1.4.9 or 2.2.1 from a version without. */
  lemma TlsSecretByStage(before: string, after: string)
    requires Ordinary(before) && Ordinary(after)
    ensures TlsSecretNeeded(before, after) <==> GainsTls(Stage(Read(before)), Stage(Read(after)))
  {
    OrdinaryReads(before);
    OrdinaryReads(after);
    UnsupportedIsOld();
    TlsRuleByStage(before != after, before == "unsupported", Read(before), Read(after));
  }

  function TlsChancesLeft(s: TlsStage): nat {
    match s
    case Before149 => 2
    case Since149 => 1
    case Before221 => 1
    case Since221 => 0
  }

  lemma TlsChancesDrop(f: Fabric, g: Fabric)
    requires Upgrade(f, g)
    ensures TlsChancesLeft(Stage(g)) + (if GainsTls(Stage(f), Stage(g)) then 1 else 0) <= TlsChancesLeft(Stage(f))
  {
  }

  /** Along an upgrade path the TLS secret is asked for at most twice, and not at
      all once 2.2.1 is reached. */
  lemma {:induction false} TlsSecretAtMostTwice(path: seq<string>)
    requires UpgradePath(path)
    ensures Count(path, TlsSecretNeeded) <= TlsChancesLeft(Stage(Read(path[0]))) <= 2
  {
    if |path| > 1 {
      UpgradePathReads(path);
      TlsSecretByStage(path[0], path[1]);
      assert Upgrade(Read(path[0]), Read(path[1]));
      TlsChancesDrop(Read(path[0]), Read(path[1]));
      forall i | 0 < i < |path[1..]| ensures !Parse(path[1..][i]).LessThan(Parse(path[1..][i - 1])) {
        assert path[1..][i] == path[i + 1];
      }
      TlsSecretAtMostTwice(path[1..]);
    }
  }

  lemma CountOfFour(p: string, q: string, r: string, s: string, flag: (string, string) -> bool)
    requires flag(p, q) && !flag(q, r) && flag(r, s)
    ensures Count([p, q, r, s], flag) == 2
  {
    assert [p, q, r, s][1..] == [q, r, s];
    assert [q, r, s][1..] == [r, s];
    assert Count([r, s], flag) == 1;
  }

  /** A path with one version in each stage asks twice. */
  lemma EachStageAsksTwice(p: string, q: string, r: string, s: string)
    requires Ordinary(p) && Ordinary(q) && Ordinary(r) && Ordinary(s)
    requires Stage(Read(p)) == Before149 && Stage(Read(q)) == Since149
    requires Stage(Read(r)) == Before221 && Stage(Read(s)) == Since221
    ensures Count([p, q, r, s], TlsSecretNeeded) == 2
  {
    TlsSecretByStage(p, q);
    TlsSecretByStage(q, r);
    TlsSecretByStage(r, s);
    CountOfFour(p, q, r, s, TlsSecretNeeded);
  }

  lemma OrdinaryDigits(a: nat, b: nat, c: nat)
    requires a in {1, 2} && b <= 9 && c <= 9
    ensures Ordinary(Dotted(a, b, c)) && Parse(Dotted(a, b, c)) == Version(a, b, c, 0)
    ensures Read(Dotted(a, b, c)) == Fabric(if a == 2 then V2 else V1, Version(a, b, c, 0))
  {
    ReadDigits(a, b, c);
  }

  lemma PathOfFour(p: string, q: string, r: string, s: string)
    requires Ordinary(p) && Ordinary(q) && Ordinary(r) && Ordinary(s)
    requires !Parse(q).LessThan(Parse(p)) && !Parse(r).LessThan(Parse(q)) && !Parse(s).LessThan(Parse(r))
    ensures UpgradePath([p, q, r, s])
  {
    var path := [p, q, r, s];
    forall i | 0 < i < |path| ensures !Parse(path[i]).LessThan(Parse(path[i - 1])) {
      assert i == 1 || i == 2 || i == 3;
    }
  }

  /** It can be asked for twice: on the way from 1.4.8 over 1.4.9 and 2.2.0 to
      2.2.1, for one. */
  lemma TlsSecretTwice(b: nat, c: nat, d: nat, e: nat)
    requires b <= 8 && 4 <= c <= 9 && d <= 2 <= e <= 9
    ensures var path := [Dotted(1, 4, b), Dotted(1, c, 9), Dotted(2, d, 0), Dotted(2, e, 1)];
            UpgradePath(path) && Count(path, TlsSecretNeeded) == 2
  {
    OrdinaryDigits(1, 4, b);
    OrdinaryDigits(1, c, 9);
    OrdinaryDigits(2, d, 0);
    OrdinaryDigits(2, e, 1);
    var p, q, r, s := Dotted(1, 4, b), Dotted(1, c, 9), Dotted(2, d, 0), Dotted(2, e, 1);
    PathOfFour(p, q, r, s);
    EachStageAsksTwice(p, q, r, s);
  }
}
