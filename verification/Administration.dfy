/** Provisioning of the Product administration roles across two stores that share no transaction:
    the PostgreSQL catalogue and the Kubernetes Secrets.  Every remote operation may fail, with or
    without having taken effect. */
module Administration {
  import opened Common
  import opened CredentialUrl

  const ROLES: seq<Role> := [Reader, Migrator, Seeder]
  const ALL_ROLES: set<Role> := {Reader, Migrator, Seeder}

  // ---- the two stores -----------------------------------------------------------------------

  /** A role's password, and whether its seven attributes are those of the contract. */
  datatype Login = Login(password: string, compliant: bool)

  datatype Membership = Membership(granted: string, member: Role, inherits: bool, sets: bool, admin: bool)

  const EXPECTED_MEMBERSHIP := Membership("product", Migrator, false, true, false)

  datatype Marker = Marker(environment: string, instanceId: string, clusterUid: string, seedAllowed: bool)

  /** What SQL transactions replace as a whole. */
  datatype Database = Database(logins: map<Role, Login>, memberships: set<Membership>, marker: Option<Marker>)

  datatype SecretName = RoleSecret(role: Role) | TargetSecret

  /** The enrolment document; `details` stands for its fields that the manager fixes. */
  datatype Target = Target(marker: Marker, details: string)

  datatype Secret = Workload(url: string, ca: string) | Enrolment(target: Target) | UnexpectedKeys

  type Secrets = map<SecretName, Secret>

  /** The exact target a manager was built for. */
  datatype Manager = Manager(environment: string, clusterUid: string, hostname: string,
                             seedAllowed: bool, details: string)

  function TargetDocument(m: Manager, instanceId: string): Target {
    Target(Marker(m.environment, instanceId, m.clusterUid, m.seedAllowed), m.details)
  }

  /** The password a role's Secret carries; `None` where the source raises. */
  function PasswordIn(role: Role, secret: Secret, host: string): (password: Option<string>)
    ensures password.Some? ==> Credential(password.value)
  {
    if secret.Workload? then PasswordFromUrl(role, secret.url, host) else None
  }

  /** `secret_values`: a freshly built Secret reads back as the password it was built from. */
  method SecretFor(role: Role, password: string, host: string, ca: string) returns (secret: Secret)
    requires Credential(password) && PlainHost(host)
    ensures secret.Workload? && secret.ca == ca
    ensures PasswordIn(role, secret, host) == Some(password)
  {
    EncodedDecodes(role, password, host);
    secret := Workload(DatabaseUrl(role, password, host), ca);
  }

  // ---- SQL transactions as functions on the catalogue ------------------------------------------

  predicate MembershipsUnderstood(db: Database) {
    db.memberships == {} || db.memberships == {EXPECTED_MEMBERSHIP}
  }

  /** The provisioning transaction; `None` where PostgreSQL aborts it. */
  function RoleSql(db: Database, passwords: map<Role, string>, existing: set<Role>, target: Target): Option<Database>
    requires passwords.Keys == ALL_ROLES
  {
    if db.logins.Keys * ALL_ROLES != existing then None   // ALTER of a missing or CREATE of a present role
    else Some(Database(
      map r | r in ALL_ROLES :: Login(if r in existing then db.logins[r].password else passwords[r], true),
      (set m | m in db.memberships && !(m.granted == "product" && m.member == Migrator)) + {EXPECTED_MEMBERSHIP},
      if db.marker.Some? then db.marker else Some(target.marker)))
  }

  /** The compensating transaction; `None` where PostgreSQL aborts it. */
  function CompensationSql(db: Database, created: set<Role>, target: Target,
                           removeTarget: bool, removeMembership: bool): Option<Database> {
    if !(created <= db.logins.Keys) || (removeMembership && Migrator !in db.logins) then None
    else Some(Database(
      db.logins - created,
      set m | m in db.memberships && m.member !in created
            && !(removeMembership && m.granted == "product" && m.member == Migrator),
      if removeTarget && db.marker == Some(target.marker) then None else db.marker))
  }

  function SetPasswords(db: Database, passwords: map<Role, string>): Option<Database> {
    if !(passwords.Keys <= db.logins.Keys) then None
    else Some(db.(logins := map r | r in db.logins ::
      if r in passwords then db.logins[r].(password := passwords[r]) else db.logins[r]))
  }

  /** PostgreSQL records memberships only of roles that exist. */
  ghost predicate Consistent(db: Database) {
    db.logins.Keys <= ALL_ROLES && forall m :: m in db.memberships ==> m.member in db.logins
  }

  // ---- what is compared -------------------------------------------------------------------------

  /** `check_role_contract`. */
  predicate RoleContract(db: Database, target: Target) {
    && db.logins.Keys == ALL_ROLES
    && (forall r :: r in db.logins ==> db.logins[r].compliant)
    && db.memberships == {EXPECTED_MEMBERSHIP}
    && db.marker == Some(target.marker)
  }

  /** Roles, their passwords, memberships and marker: everything but the role attributes, which
      the compensation does not restore. */
  ghost predicate SameIdentities(a: Database, b: Database) {
    && a.logins.Keys == b.logins.Keys
    && (forall r :: r in a.logins ==> a.logins[r].password == b.logins[r].password)
    && a.memberships == b.memberships
    && a.marker == b.marker
  }

  /** Nothing that stood in `before` was dropped or had its credential changed. */
  ghost predicate KeepsExisting(before: Database, after: Database) {
    forall r :: r in before.logins ==> r in after.logins && after.logins[r].password == before.logins[r].password
  }

  ghost predicate KeepsSecrets(before: Secrets, after: Secrets) {
    forall n :: n in before ==> n in after && after[n] == before[n]
  }

  /** Every Secret decodes, and the enrolment document is the manager's own. */
  predicate ReadableInputs(m: Manager, secrets: Secrets) {
    && (forall r :: r in ALL_ROLES && RoleSecret(r) in secrets
         ==> PasswordIn(r, secrets[RoleSecret(r)], m.hostname).Some?)
    && (TargetSecret in secrets ==> ReadableTarget(m, secrets[TargetSecret]))
  }

  predicate ReadableTarget(m: Manager, secret: Secret) {
    secret.Enrolment? && secret.target == TargetDocument(m, secret.target.marker.instanceId)
  }

  /** The document a run works with: the stored one, or a new one under a fresh identity. */
  function ChosenTarget(m: Manager, secrets: Secrets, freshInstance: string): Target {
    if TargetSecret in secrets && secrets[TargetSecret].Enrolment? then secrets[TargetSecret].target
    else TargetDocument(m, freshInstance)
  }

  /** Each role exists exactly when its Secret does, and the two agree on the password. */
  ghost predicate Paired(m: Manager, db: Database, secrets: Secrets) {
    forall r :: r in ALL_ROLES ==>
      && (r in db.logins <==> RoleSecret(r) in secrets)
      && (r in db.logins ==> PasswordIn(r, secrets[RoleSecret(r)], m.hostname) == Some(db.logins[r].password))
  }

  /** A role exists exactly when its Secret does, and every Secret carries the cluster's CA. */
  predicate SecretsMatchRoles(db: Database, secrets: Secrets, ca: string)
  {
    forall r :: r in ALL_ROLES ==>
      && (r in db.logins <==> RoleSecret(r) in secrets)
      && (RoleSecret(r) in secrets ==> secrets[RoleSecret(r)].Workload? && secrets[RoleSecret(r)].ca == ca)
  }

  /** Every check a caller can make before provisioning, except that the marker may disagree. */
  ghost predicate Acceptable(m: Manager, ca: Option<string>, db: Database, secrets: Secrets) {
    && MembershipsUnderstood(db)
    && ReadableInputs(m, secrets)
    && ca.Some? && SecretsMatchRoles(db, secrets, ca.value)
  }

  /** What the compensated exit guarantees: every identity is the predecessor's, and where the
      compensation branch ran the only Secret more than before is the orphan, if there is one. */
  ghost predicate Restored(db: Database, secrets: Secrets, db': Database, secrets': Secrets, orphan: set<SecretName>) {
    && SameIdentities(db', db) && KeepsSecrets(secrets, secrets')
    && (if CompensationNeeded(db)
        then secrets'.Keys == secrets.Keys + orphan && (secrets' == secrets <==> orphan == {})
        else secrets'.Keys <= secrets.Keys + {TargetSecret})
  }

  // ---- which puts a run makes, and which of them are lost ---------------------------------------

  /** How many of the first `i` roles have no Secret. */
  function Missing(existing: Secrets, i: nat): nat
    requires i <= |ROLES|
  {
    if i == 0 then 0 else Missing(existing, i - 1) + if RoleSecret(ROLES[i - 1]) in existing then 0 else 1
  }

  /** The number of operations before the put of a missing Secret, counted from the end of the grant:
      the puts of the missing Secrets before it, and one read before that of the document. */
  function Offset(existing: Secrets, name: SecretName): nat {
    match name
    case RoleSecret(Reader) => 0
    case RoleSecret(Migrator) => Missing(existing, 1)
    case RoleSecret(Seeder) => Missing(existing, 2)
    case TargetSecret => Missing(existing, 3) + 1
  }

  /** The Secrets whose put is the first operation to fail, and fails after taking effect: the run
      cannot know of them, and there is at most one. */
  ghost function Lost(existing: Secrets, faults: nat -> Fault, from: nat): set<SecretName> {
    set n | n in ALL_NAMES && LosesPut(existing, faults, from, n)
  }

  ghost predicate LosesPut(existing: Secrets, faults: nat -> Fault, from: nat, name: SecretName) {
    var at := from + Offset(existing, name);
    name !in existing && faults(at).LostAfter? && !Disturbed(faults, from, at)
  }

  /** The operations of the protected part: the missing Secrets' puts, and a read before and after the
      document's. */
  function Operations(existing: Secrets): nat {
    Missing(existing, 3) + 2 + if TargetSecret in existing then 0 else 1
  }

  lemma RolesInOrder()
    ensures ROLES[0] == Reader && ROLES[1] == Migrator && ROLES[2] == Seeder && |ROLES| == 3
  {
  }

  lemma MissingCounted(existing: Secrets)
    ensures Missing(existing, 1) == if RoleSecret(Reader) in existing then 0 else 1
    ensures Missing(existing, 2) == Missing(existing, 1) + if RoleSecret(Migrator) in existing then 0 else 1
    ensures Missing(existing, 3) == Missing(existing, 2) + if RoleSecret(Seeder) in existing then 0 else 1
  {
    RolesInOrder();
  }

  lemma MissingStep(existing: Secrets, i: nat)
    requires i < |ROLES|
    ensures Missing(existing, i + 1) == Missing(existing, i) + if RoleSecret(ROLES[i]) in existing then 0 else 1
    ensures Missing(existing, 0) == 0
  {
  }

  lemma OffsetsOfRoles(existing: Secrets)
    ensures Missing(existing, 0) == 0
    ensures forall i :: 0 <= i < |ROLES| ==> Offset(existing, RoleSecret(ROLES[i])) == Missing(existing, i)
    ensures Offset(existing, TargetSecret) == Missing(existing, 3) + 1
  {
    RolesInOrder();
  }

  /** The document's put comes after all others, and not right after them. */
  lemma TargetOffset(existing: Secrets)
    ensures Offset(existing, TargetSecret) == Missing(existing, 3) + 1
    ensures forall r :: r in ALL_ROLES && RoleSecret(r) !in existing ==>
              Offset(existing, RoleSecret(r)) < Missing(existing, 3)
  {
    hide Missing;
    MissingCounted(existing);
  }

  lemma NothingLostYet(existing: Secrets, faults: nat -> Fault, from: nat)
    requires !Disturbed(faults, from, from + Missing(existing, 3) + 1)
    requires TargetSecret !in existing ==> !Disturbed(faults, from, from + Missing(existing, 3) + 2)
    ensures Lost(existing, faults, from) == {}
  {
    hide Missing;
    TargetOffset(existing);
    forall n | n in ALL_NAMES ensures !LosesPut(existing, faults, from, n) {
      var at := from + Offset(existing, n);
      if n !in existing { assert faults(at) == Fine; }
    }
  }

  lemma NotYetWritten(written: seq<SecretName>, i: nat)
    requires i < |ROLES| && Names(written) <= set k | 0 <= k < i :: RoleSecret(ROLES[k])
    ensures RoleSecret(ROLES[i]) !in written
  {
    RolesInOrder();
    assert RoleSecret(ROLES[i]) !in Names(written);
  }

  /** The first failure decides which put is lost. */
  lemma LostAtFirst(existing: Secrets, faults: nat -> Fault, from: nat, at: nat)
    requires from <= at && !Disturbed(faults, from, at) && faults(at) != Fine
    ensures forall n :: n in ALL_NAMES && n !in existing && at == from + Offset(existing, n) ==>
              Lost(existing, faults, from) == if faults(at).LostAfter? then {n} else {}
    ensures (forall n :: n in ALL_NAMES && n !in existing ==> at != from + Offset(existing, n)) ==>
              Lost(existing, faults, from) == {}
  {
    hide Missing;
    MissingCounted(existing);
    forall n | n in Lost(existing, faults, from) ensures at == from + Offset(existing, n) && faults(at).LostAfter? {
      var k := from + Offset(existing, n);
      assert faults(k) != Fine;
    }
  }

  lemma ExtendedByPut(existing: Secrets, wanted: Secrets, now: Secrets, written: seq<SecretName>, name: SecretName)
    requires Extended(existing, wanted, now, written, {}) && name in wanted && name !in existing
    ensures Extended(existing, wanted, now[name := wanted[name]], written + [name], {})
    ensures name !in written ==> Extended(existing, wanted, now[name := wanted[name]], written, {name})
    ensures name in written ==> now[name := wanted[name]] == now
    ensures Names(written + [name]) == Names(written) + {name} && (name in now <==> name in written)
  {
    assert Names(written + [name]) == Names(written) + {name};
  }

  /** Every Secret that was not there before is as wanted. */
  ghost predicate NewFrom(existing: Secrets, now: Secrets, wanted: Secrets) {
    forall n :: n in now && n !in existing ==> n in wanted && now[n] == wanted[n]
  }

  lemma ExtendedNone(existing: Secrets, wanted: Secrets)
    ensures Extended(existing, wanted, existing, [], {})
  {
    assert existing + Pick(wanted, {}) == existing;
  }

  lemma ExtendedMeans(existing: Secrets, wanted: Secrets, now: Secrets, written: seq<SecretName>,
                      orphan: set<SecretName>)
    requires Extended(existing, wanted, now, written, orphan)
    ensures KeepsSecrets(existing, now) && orphan !! existing.Keys
    ensures NewFrom(existing, now, wanted)
    ensures wanted.Keys <= existing.Keys ==> now == existing
  {
  }

  /** All four Secrets are there and the database is under contract with the stored document. */
  ghost predicate MeetsContract(db: Database, secrets: Secrets, target: Target) {
    && ALL_NAMES <= secrets.Keys && secrets[TargetSecret] == Enrolment(target)
    && RoleContract(db, target)
  }

  /** The document a run works with is the stored one, if there is one. */
  ghost predicate DocumentOf(secrets: Secrets, target: Target) {
    TargetSecret in secrets ==> secrets[TargetSecret] == Enrolment(target)
  }

  ghost const ALL_NAMES: set<SecretName> :=
    {RoleSecret(Reader), RoleSecret(Migrator), RoleSecret(Seeder), TargetSecret}

  /** The Secrets of a run, each role's carrying that role's password. */
  ghost predicate Carries(wanted: Secrets, inputs: Inputs, host: string, ca: string) {
    && wanted.Keys == ALL_NAMES && wanted[TargetSecret] == Enrolment(inputs.target)
    && inputs.passwords.Keys == ALL_ROLES
    && forall r :: r in ALL_ROLES ==>
         && PasswordIn(r, wanted[RoleSecret(r)], host) == Some(inputs.passwords[r])
         && wanted[RoleSecret(r)].Workload? && wanted[RoleSecret(r)].ca == ca
  }

  /** Each role that was created has the generated password, in both stores; a role that stood
      keeps its own, and so does its Secret. */
  ghost predicate NewCredentials(m: Manager, db: Database, secrets: Secrets, db': Database, secrets': Secrets,
                                 generated: map<Role, string>)
    requires generated.Keys == ALL_ROLES
  {
    forall r :: r in ALL_ROLES ==>
      && r in db'.logins && RoleSecret(r) in secrets'
      && if r in db.logins && RoleSecret(r) in secrets
         then db'.logins[r].password == db.logins[r].password && secrets'[RoleSecret(r)] == secrets[RoleSecret(r)]
         else && db'.logins[r].password == generated[r]
              && PasswordIn(r, secrets'[RoleSecret(r)], m.hostname) == Some(generated[r])
  }

  lemma CarriedDocument(wanted: Secrets, inputs: Inputs, host: string, ca: string)
    requires Carries(wanted, inputs, host, ca)
    ensures wanted.Keys == ALL_NAMES && inputs.passwords.Keys == ALL_ROLES
    ensures wanted[TargetSecret] == Enrolment(inputs.target)
  {
    hide PasswordIn;
  }

  lemma CreatedCredentials(m: Manager, db: Database, secrets: Secrets, db': Database, secrets': Secrets,
                           generated: map<Role, string>, inputs: Inputs, wanted: Secrets, ca: string)
    requires generated.Keys == ALL_ROLES && Carries(wanted, inputs, m.hostname, ca)
    requires KeepsExisting(db, db') && KeepsSecrets(secrets, secrets')
    requires db'.logins.Keys == ALL_ROLES && ALL_NAMES <= secrets'.Keys
    requires forall r :: r in ALL_ROLES ==> (r in db.logins <==> RoleSecret(r) in secrets)
    requires forall r :: r in ALL_ROLES && RoleSecret(r) !in secrets ==> inputs.passwords[r] == generated[r]
    requires forall r :: r in ALL_ROLES - db.logins.Keys ==> db'.logins[r].password == inputs.passwords[r]
    requires forall n :: n in wanted && n !in secrets ==> secrets'[n] == wanted[n]
    ensures NewCredentials(m, db, secrets, db', secrets', generated)
    ensures Paired(m, db, secrets) ==> Paired(m, db', secrets')
  {
    hide PasswordIn;
  }

  /** What the source writes under each name that is missing. */
  method WantedSecrets(inputs: Inputs, host: string, ca: string) returns (wanted: Secrets)
    requires PlainHost(host) && inputs.passwords.Keys == ALL_ROLES
    requires forall r :: r in ALL_ROLES ==> Credential(inputs.passwords[r])
    ensures Carries(wanted, inputs, host, ca)
  {
    hide PasswordFromUrl;
    var reader := SecretFor(Reader, inputs.passwords[Reader], host, ca);
    var migrator := SecretFor(Migrator, inputs.passwords[Migrator], host, ca);
    var seeder := SecretFor(Seeder, inputs.passwords[Seeder], host, ca);
    return map[RoleSecret(Reader) := reader, RoleSecret(Migrator) := migrator,
               RoleSecret(Seeder) := seeder, TargetSecret := Enrolment(inputs.target)];
  }

  ghost function Pick(wanted: Secrets, names: set<SecretName>): Secrets {
    map n | n in names && n in wanted :: wanted[n]
  }

  ghost function Names(written: seq<SecretName>): set<SecretName> { set n | n in written }

  /** `existing` plus exactly the wanted Secrets under the names recorded as written or orphaned. */
  ghost predicate Extended(existing: Secrets, wanted: Secrets, now: Secrets, written: seq<SecretName>,
                           orphan: set<SecretName>) {
    && existing.Keys !! Names(written) && orphan !! existing.Keys + Names(written)
    && Names(written) + orphan <= wanted.Keys
    && now == existing + Pick(wanted, Names(written) + orphan)
  }

  /** The compensation branch at the end of a failed run is taken unless the run created no role,
      no marker and no membership. */
  predicate CompensationNeeded(before: Database) {
    before.logins.Keys != ALL_ROLES || before.marker.None? || before.memberships == {}
  }

  /** The compensating transaction that a failed run from `before` issues on `db`. */
  function UndoSql(before: Database, db: Database, target: Target): Option<Database> {
    CompensationSql(db, ALL_ROLES - before.logins.Keys, target, before.marker.None?, before.memberships == {})
  }

  // ---- the transactions are inverse -------------------------------------------------------------

  /** Run right after the provisioning transaction, the compensating transaction commits and
      brings back the roles with their passwords, the memberships and the marker. */
  lemma CompensationUndoesProvisioning(before: Database, passwords: map<Role, string>, target: Target)
    requires Consistent(before) && MembershipsUnderstood(before)
    requires passwords.Keys == ALL_ROLES
    ensures var granted := RoleSql(before, passwords, before.logins.Keys, target);
            && granted.Some?
            && var undone := CompensationSql(granted.value, ALL_ROLES - before.logins.Keys, target,
                                             before.marker.None?, before.memberships == {});
               undone.Some? && SameIdentities(undone.value, before)
  {
    assert before.logins.Keys * ALL_ROLES == before.logins.Keys;
    var granted := RoleSql(before, passwords, before.logins.Keys, target).value;
    var undone := UndoSql(before, granted, target).value;
    assert granted.memberships == {EXPECTED_MEMBERSHIP};
    if before.memberships != {} {
      assert EXPECTED_MEMBERSHIP in before.memberships;
      assert Migrator in before.logins;
    }
    assert undone.memberships == before.memberships;
  }

  /** The readback that the compensation performs. */
  predicate ReadsBackAs(before: Database, db: Database) {
    && db.logins.Keys !! ALL_ROLES - before.logins.Keys
    && db.memberships == before.memberships && db.marker == before.marker
  }

  /** Whether or not the compensating transaction took effect, the predecessor's credentials
      stand; and when the readback agrees, every identity is the predecessor's. */
  lemma DatabaseAfterCompensation(before: Database, passwords: map<Role, string>, granted: Database,
                                  db: Database, target: Target)
    requires Consistent(before) && MembershipsUnderstood(before) && passwords.Keys == ALL_ROLES
    requires RoleSql(before, passwords, before.logins.Keys, target) == Some(granted)
    requires db == granted || (CompensationNeeded(before) && UndoSql(before, granted, target) == Some(db))
    ensures KeepsExisting(before, db) && Consistent(db)
    ensures !CompensationNeeded(before) || ReadsBackAs(before, db) ==> SameIdentities(db, before)
    ensures RoleContract(before, target) ==> SameIdentities(db, before) && RoleContract(db, target)
  {
    CompensationUndoesProvisioning(before, passwords, target);
    if !CompensationNeeded(before) { NothingToCompensate(before, passwords, target); }
  }

  /** The provisioning transaction reaches the contract exactly when no foreign marker stands. */
  lemma GrantReachesContract(before: Database, passwords: map<Role, string>, target: Target)
    requires Consistent(before) && MembershipsUnderstood(before) && passwords.Keys == ALL_ROLES
    ensures var granted := RoleSql(before, passwords, before.logins.Keys, target);
            && granted.Some? && KeepsExisting(before, granted.value) && Consistent(granted.value)
            && (RoleContract(granted.value, target) <==> before.marker in {None, Some(target.marker)})
            && (forall r :: r in ALL_ROLES - before.logins.Keys ==> granted.value.logins[r].password == passwords[r])
            && (RoleContract(before, target) ==>
                  SameIdentities(granted.value, before) && RoleContract(granted.value, target))
  {
    assert before.logins.Keys * ALL_ROLES == before.logins.Keys;
    var granted := RoleSql(before, passwords, before.logins.Keys, target).value;
    assert granted.memberships == {EXPECTED_MEMBERSHIP};
  }

  /** When nothing has to be compensated, the provisioning transaction changed no identity. */
  lemma NothingToCompensate(before: Database, passwords: map<Role, string>, target: Target)
    requires Consistent(before) && MembershipsUnderstood(before)
    requires passwords.Keys == ALL_ROLES && !CompensationNeeded(before)
    ensures var granted := RoleSql(before, passwords, before.logins.Keys, target);
            granted.Some? && SameIdentities(granted.value, before)
  {
    assert before.logins.Keys * ALL_ROLES == before.logins.Keys;
    assert EXPECTED_MEMBERSHIP in before.memberships;
  }

  /** The checks pass and the marker, if there is one, is the run's own: the states on which an
      undisturbed run succeeds. */
  ghost predicate Provisionable(m: Manager, ca: Option<string>, db: Database, secrets: Secrets, freshInstance: string) {
    && Acceptable(m, ca, db, secrets)
    && (db.marker.None? || db.marker == Some(ChosenTarget(m, secrets, freshInstance).marker))
  }

  /** Provisionability depends on the identities only. */
  lemma SameIdentitiesAlike(m: Manager, ca: Option<string>, a: Database, b: Database, secrets: Secrets,
                            instance: string)
    requires SameIdentities(a, b)
    ensures Consistent(a) <==> Consistent(b)
    ensures Provisionable(m, ca, a, secrets, instance) <==> Provisionable(m, ca, b, secrets, instance)
  {
    hide ReadableInputs;
  }

  /** A state that a run reached is one on which every later run can succeed. */
  lemma ReachedIsProvisionable(m: Manager, ca: string, db: Database, secrets: Secrets, db': Database, secrets': Secrets,
                               inputs: Inputs, wanted: Secrets, instance: string)
    requires Acceptable(m, Some(ca), db, secrets) && Carries(wanted, inputs, m.hostname, ca)
    requires KeepsSecrets(secrets, secrets') && MeetsContract(db', secrets', inputs.target)
    requires forall n :: n in wanted && n !in secrets ==> secrets'[n] == wanted[n]
    requires inputs.target == ChosenTarget(m, secrets, instance)
    ensures forall later :: Provisionable(m, Some(ca), db', secrets', later)
  {
    hide PasswordIn, Credential;
    assert db'.memberships == {EXPECTED_MEMBERSHIP};
    forall r | r in ALL_ROLES
      ensures PasswordIn(r, secrets'[RoleSecret(r)], m.hostname).Some?
      ensures secrets'[RoleSecret(r)].Workload? && secrets'[RoleSecret(r)].ca == ca
    {
      if RoleSecret(r) in secrets {
        assert secrets'[RoleSecret(r)] == secrets[RoleSecret(r)];
      } else {
        assert secrets'[RoleSecret(r)] == wanted[RoleSecret(r)];
      }
    }
  }

  /** A normal return: the contract holds, every new credential is the one its Secret carries, and
      what was accepted is accepted by every later run. */
  ghost predicate Succeeded(m: Manager, ca: Option<string>, db: Database, secrets: Secrets, db': Database,
                            secrets': Secrets, generated: map<Role, string>, instance: string)
    requires generated.Keys == ALL_ROLES
  {
    && MeetsContract(db', secrets', ChosenTarget(m, secrets, instance))
    && NewCredentials(m, db, secrets, db', secrets', generated)
    && (Paired(m, db, secrets) ==> Paired(m, db', secrets'))
    && Provisionable(m, ca, db, secrets, instance)
    && forall later :: Provisionable(m, ca, db', secrets', later)
  }

  /** What a consumer of the database finds: the three roles with their attributes and no other, the
      migrator's membership alone, and the marker. */
  ghost predicate UnderContract(db: Database, marker: Marker) {
    && db.logins.Keys == {Reader, Migrator, Seeder} && (forall r :: r in db.logins ==> db.logins[r].compliant)
    && db.memberships == {Membership("product", Migrator, false, true, false)} && db.marker == Some(marker)
  }

  /** The database is under contract with the stored document, and each role's Secret carries the CA. */
  ghost predicate Delivered(db: Database, secrets: Secrets, ca: string) {
    && TargetSecret in secrets && secrets[TargetSecret].Enrolment?
    && UnderContract(db, secrets[TargetSecret].target.marker)
    && forall r :: r in {Reader, Migrator, Seeder} ==>
         RoleSecret(r) in secrets && secrets[RoleSecret(r)].Workload? && secrets[RoleSecret(r)].ca == ca
  }

  lemma SuccessDelivers(m: Manager, ca: string, db: Database, secrets: Secrets, db': Database, secrets': Secrets,
                        generated: map<Role, string>, instance: string)
    requires generated.Keys == ALL_ROLES
    requires Succeeded(m, Some(ca), db, secrets, db', secrets', generated, instance)
    ensures Delivered(db', secrets', ca)
  {
    hide PasswordIn, NewCredentials, ReadableInputs;
    assert Provisionable(m, Some(ca), db', secrets', instance);
  }

  lemma Success(m: Manager, ca: string, db: Database, secrets: Secrets, db': Database, secrets': Secrets,
                generated: map<Role, string>, inputs: Inputs, wanted: Secrets, instance: string)
    requires generated.Keys == ALL_ROLES && Carries(wanted, inputs, m.hostname, ca)
    requires Acceptable(m, Some(ca), db, secrets) && inputs.target == ChosenTarget(m, secrets, instance)
    requires KeepsExisting(db, db') && KeepsSecrets(secrets, secrets')
    requires db.marker in {None, Some(inputs.target.marker)}
    requires db'.logins.Keys == ALL_ROLES && MeetsContract(db', secrets', inputs.target)
    requires forall r :: r in ALL_ROLES ==> (r in db.logins <==> RoleSecret(r) in secrets)
    requires forall r :: r in ALL_ROLES && RoleSecret(r) !in secrets ==> inputs.passwords[r] == generated[r]
    requires forall r :: r in ALL_ROLES - db.logins.Keys ==> db'.logins[r].password == inputs.passwords[r]
    requires forall n :: n in wanted && n !in secrets ==> secrets'[n] == wanted[n]
    ensures Succeeded(m, Some(ca), db, secrets, db', secrets', generated, instance)
  {
    hide PasswordIn, Carries, Acceptable, NewCredentials, Paired, KeepsExisting, KeepsSecrets, RoleContract;
    CreatedCredentials(m, db, secrets, db', secrets', generated, inputs, wanted, ca);
    ReachedIsProvisionable(m, ca, db, secrets, db', secrets', inputs, wanted, instance);
  }

  lemma NothingDone(m: Manager, ca: Option<string>, db: Database, secrets: Secrets, faults: nat -> Fault, from: nat,
                    instance: string)
    requires !(Acceptable(m, ca, db, secrets) && !Disturbed(faults, from, from + 6))
    ensures KeepsExisting(db, db) && KeepsSecrets(secrets, secrets)
    ensures SameIdentities(db, db) && forall target :: NewDocument(secrets, secrets, target)
    ensures ReliableFrom(faults, from) ==> !Provisionable(m, ca, db, secrets, instance)
  {
    hide Acceptable;
  }

  lemma FailedBefore(faults: nat -> Fault, from: nat, mid: nat)
    requires from <= mid
    ensures Disturbed(faults, from, mid) && !TwoFaults(faults, from) ==> ReliableFrom(faults, mid)
    ensures ReliableFrom(faults, from) ==> ReliableFrom(faults, mid) && !Disturbed(faults, from, mid)
  {
  }

  /** What is known from a later operation on is known from an earlier one on. */
  lemma InTwoParts(faults: nat -> Fault, from: nat, mid: nat, to: nat)
    requires from <= mid <= to
    ensures Disturbed(faults, from, to) <==> Disturbed(faults, from, mid) || Disturbed(faults, mid, to)
  {
  }

  lemma AsOfLater(faults: nat -> Fault, from: nat, mid: nat)
    requires from <= mid
    ensures ReliableFrom(faults, from) ==> ReliableFrom(faults, mid)
    ensures TwoFaults(faults, mid) ==> TwoFaults(faults, from)
  {
  }

  lemma ContractKept(m: Manager, before: Database, db: Database, secrets: Secrets, target: Target, instance: string)
    ensures MeetsContract(before, secrets, target) && RoleContract(db, target) ==> MeetsContract(db, secrets, target)
    ensures MeetsContract(before, secrets, target) ==> ChosenTarget(m, secrets, instance) == target
  {
    hide RoleContract;
  }

  /** What the provisioning transaction makes of a database. */
  function Granted(before: Database, inputs: Inputs): Database
    requires inputs.passwords.Keys == ALL_ROLES
  {
    var granted := RoleSql(before, inputs.passwords, before.logins.Keys, inputs.target);
    if granted.Some? then granted.value else before
  }

  /** All roles and the membership exist, and the marker if there was none is the run's. */
  ghost predicate GrantedTo(before: Database, after: Database, target: Target) {
    && after.logins.Keys == ALL_ROLES && after.memberships == {EXPECTED_MEMBERSHIP}
    && after.marker == (if before.marker.None? then Some(target.marker) else before.marker)
  }

  /** What a committed grant whose reply is lost leaves: everything granted, and a target that a later
      run accepts exactly when all roles were there before. */
  ghost predicate GrantLost(m: Manager, ca: Option<string>, before: Database, after: Database, secrets: Secrets,
                            target: Target)
  {
    && GrantedTo(before, after, target)
    && (Acceptable(m, ca, after, secrets) <==> ALL_ROLES <= before.logins.Keys)
  }

  /** A later run accepts the target exactly when nothing of `obstacles` is there. */
  ghost predicate AcceptedUnless(m: Manager, ca: Option<string>, db: Database, secrets: Secrets,
                                 obstacles: set<SecretName>)
  {
    Acceptable(m, ca, db, secrets) <==> obstacles == {}
  }

  /** A document that was not there before is the run's. */
  ghost predicate NewDocument(before: Secrets, after: Secrets, target: Target) {
    TargetSecret in after && TargetSecret !in before ==> after[TargetSecret] == Enrolment(target)
  }

  lemma LostGrantLeaves(m: Manager, ca: string, db: Database, db': Database, secrets: Secrets, inputs: Inputs)
    requires inputs.passwords.Keys == ALL_ROLES && Consistent(db) && Acceptable(m, Some(ca), db, secrets)
    ensures db' == Granted(db, inputs) ==> GrantLost(m, Some(ca), db, db', secrets, inputs.target)
  {
    hide PasswordIn, ReadableInputs;
  }

  lemma CompensationLeaves(m: Manager, ca: string, db: Database, secrets: Secrets, db': Database, secrets': Secrets,
                           orphan: set<SecretName>, faults: nat -> Fault, from: nat, wanted: Secrets, inputs: Inputs,
                           instance: string)
    requires TargetSecret in wanted && Acceptable(m, Some(ca), db, secrets) && NewFrom(secrets, secrets', wanted)
    requires inputs.target == ChosenTarget(m, secrets, instance) && wanted[TargetSecret] == Enrolment(inputs.target)
    ensures Restored(db, secrets, db', secrets', orphan) && orphan in {{}, Lost(secrets, faults, from)} ==>
              AcceptedUnless(m, Some(ca), db', secrets', orphan - {TargetSecret})
    ensures NewDocument(secrets, secrets', inputs.target)
  {
    hide PasswordIn, Acceptable, Restored, ReadableInputs;
    if Restored(db, secrets, db', secrets', orphan) && orphan in {{}, Lost(secrets, faults, from)} {
      RolesRestored(m, ca, db, secrets, db', secrets', orphan);
      if orphan - {TargetSecret} == {} {
        NothingObstructs(m, ca, db, secrets, db', secrets', inputs.target, instance);
      } else {
        var n :| n in orphan - {TargetSecret};
        LostRoleObstructs(m, ca, db, secrets, db', secrets', n.role);
      }
    }
  }

  lemma RolesRestored(m: Manager, ca: string, db: Database, secrets: Secrets, db': Database, secrets': Secrets,
                      orphan: set<SecretName>)
    requires Acceptable(m, Some(ca), db, secrets) && Restored(db, secrets, db', secrets', orphan)
    requires orphan !! secrets.Keys
    ensures SameIdentities(db', db) && KeepsSecrets(secrets, secrets')
    ensures orphan - {TargetSecret} == {} ==> secrets'.Keys <= secrets.Keys + {TargetSecret}
    ensures forall n :: n in orphan && n.RoleSecret? && n.role in ALL_ROLES ==> n in secrets' && n !in secrets
  {
    hide ReadableInputs;
    forall n | n in orphan && n.RoleSecret? && n.role in ALL_ROLES ensures n in secrets' {
      assert n.role in db.logins <==> n in secrets;
    }
  }

  lemma LostRoleObstructs(m: Manager, ca: string, db: Database, secrets: Secrets, db': Database, secrets': Secrets,
                          r: Role)
    requires Acceptable(m, Some(ca), db, secrets) && SameIdentities(db', db)
    requires r in ALL_ROLES && RoleSecret(r) in secrets' && RoleSecret(r) !in secrets
    ensures !Acceptable(m, Some(ca), db', secrets')
  {
    hide ReadableInputs;
  }

  lemma NothingObstructs(m: Manager, ca: string, db: Database, secrets: Secrets, db': Database, secrets': Secrets,
                         target: Target, instance: string)
    requires Acceptable(m, Some(ca), db, secrets) && SameIdentities(db', db)
    requires KeepsSecrets(secrets, secrets') && secrets'.Keys <= secrets.Keys + {TargetSecret}
    requires target == ChosenTarget(m, secrets, instance) && NewDocument(secrets, secrets', target)
    ensures Acceptable(m, Some(ca), db', secrets')
  {
    hide PasswordIn;
    assert forall r :: r in ALL_ROLES ==> (RoleSecret(r) in secrets' <==> RoleSecret(r) in secrets);
  }

  lemma NothingChanged(db: Database, secrets: Secrets)
    ensures SameIdentities(db, db) && KeepsExisting(db, db) && KeepsSecrets(secrets, secrets)
  {
  }

  lemma ContractRoles(db: Database, target: Target)
    ensures RoleContract(db, target) ==> db.logins.Keys == ALL_ROLES
  {
  }

  lemma RestoredSame(db: Database, secrets: Secrets, db': Database, secrets': Secrets, orphan: set<SecretName>)
    ensures Restored(db, secrets, db', secrets', orphan) ==> SameIdentities(db', db)
  {
  }

  lemma ContractIsConsistent(m: Manager, db: Database, secrets: Secrets, target: Target, instance: string)
    requires MeetsContract(db, secrets, target)
    ensures Consistent(db) && ChosenTarget(m, secrets, instance) == target
  {
  }

  /** The Secrets after the best-effort deletions: nothing that stood before is touched, and when
      every written name is gone only the orphan, if any, remains. */
  lemma SecretsAfterDeletion(existing: Secrets, wanted: Secrets, mid: Secrets, written: seq<SecretName>,
                             orphan: set<SecretName>, now: Secrets)
    requires Extended(existing, wanted, mid, written, orphan) && wanted.Keys == ALL_NAMES
    requires now.Keys <= mid.Keys && forall n :: n in now ==> now[n] == mid[n]
    requires forall n :: n in mid && n !in Names(written) ==> n in now
    ensures KeepsSecrets(existing, now) && orphan !! existing.Keys && NewFrom(existing, now, wanted)
    ensures now.Keys !! Names(written) ==> now.Keys == existing.Keys + orphan
    ensures now.Keys !! Names(written) && orphan == {} ==> now == existing
    ensures (forall r :: r in ALL_ROLES ==> RoleSecret(r) in existing) ==> now.Keys <= existing.Keys + {TargetSecret}
    ensures ALL_NAMES <= existing.Keys ==> now == existing
  {
    assert mid.Keys == existing.Keys + Names(written) + orphan;
    if now.Keys !! Names(written) && orphan == {} {
      assert now.Keys == existing.Keys;
    }
  }

  // ---- the operations ---------------------------------------------------------------------------

  datatype ProvisionExit =
    | Refused                  // a check or a read raised before anything was changed
    | GrantFailed              // the provisioning transaction itself raised
    | Provisioned              // normal return
    | Compensated              // "partial state compensated"
    | CompensationIncomplete   // "compensation was incomplete"

  datatype Inputs = Inputs(passwords: map<Role, string>, target: Target)

  class Cluster {
    const manager: Manager
    const ca: Option<string>
    const faults: nat -> Fault
    var step: nat
    var database: Database
    var secrets: Secrets

    constructor (manager: Manager, ca: Option<string>, faults: nat -> Fault, database: Database, secrets: Secrets)
      ensures this.manager == manager && this.ca == ca && this.faults == faults && step == 0
      ensures this.database == database && this.secrets == secrets
    {
      this.manager, this.ca, this.faults, this.step := manager, ca, faults, 0;
      this.database, this.secrets := database, secrets;
    }

    /** A read of either store. */
    method Probe() returns (ok: bool)
      modifies this`step
      ensures step == old(step) + 1
      ensures ok <==> faults(old(step)).Fine?
    {
      ok := faults(step).Fine?;
      step := step + 1;
    }

    /** One SQL transaction, given its effect (`None` when PostgreSQL aborts it). */
    method Admin(effect: Option<Database>) returns (ok: bool)
      modifies this`step, this`database
      ensures step == old(step) + 1
      ensures ok <==> effect.Some? && faults(old(step)).Fine?
      ensures database == if effect.Some? && !faults(old(step)).LostBefore? then effect.value else old(database)
    {
      ok := effect.Some? && faults(step).Fine?;
      if effect.Some? && !faults(step).LostBefore? {
        database := effect.value;
      }
      step := step + 1;
    }

    method PutSecret(name: SecretName, value: Secret) returns (ok: bool)
      modifies this`step, this`secrets
      ensures step == old(step) + 1
      ensures ok <==> faults(old(step)).Fine?
      ensures secrets == if faults(old(step)).LostBefore? then old(secrets) else old(secrets)[name := value]
    {
      ok := faults(step).Fine?;
      if !faults(step).LostBefore? {
        secrets := secrets[name := value];
      }
      step := step + 1;
    }

    method DeleteSecret(name: SecretName) returns (ok: bool)
      modifies this`step, this`secrets
      ensures step == old(step) + 1
      ensures ok <==> faults(old(step)).Fine?
      ensures secrets == if faults(old(step)).LostBefore? then old(secrets) else old(secrets) - {name}
    {
      ok := faults(step).Fine?;
      if !faults(step).LostBefore? {
        secrets := secrets - {name};
      }
      step := step + 1;
    }

    /** `read_or_create_inputs`: stored credentials decode, missing ones are generated. */
    method ReadOrCreateInputs(generated: map<Role, string>, freshInstance: string) returns (r: Option<Inputs>)
      requires generated.Keys == ALL_ROLES
      modifies this`step
      ensures step > old(step)
      ensures r.Some? ==> ReadableInputs(manager, secrets)
      ensures r.Some? ==> r.value.target == ChosenTarget(manager, secrets, freshInstance)
      ensures r.Some? ==> r.value.passwords.Keys == ALL_ROLES && forall x :: x in ALL_ROLES ==>
        if RoleSecret(x) in secrets
        then PasswordIn(x, secrets[RoleSecret(x)], manager.hostname) == Some(r.value.passwords[x])
        else r.value.passwords[x] == generated[x]
      ensures r.Some? && TargetSecret in secrets ==> secrets[TargetSecret] == Enrolment(r.value.target)
      ensures r.Some? && (forall x :: x in generated ==> Credential(generated[x])) ==>
                forall x :: x in r.value.passwords ==> Credential(r.value.passwords[x])
      ensures ReliableFrom(faults, old(step)) && ReadableInputs(manager, secrets) ==> r.Some?
      // four reads, and any of them may fail
      ensures r.Some? ==> step == old(step) + 4
      ensures r.Some? <==> ReadableInputs(manager, secrets) && !Disturbed(faults, old(step), old(step) + 4)
    {
      hide PasswordIn;
      var passwords: map<Role, string> := map[];
      var i := 0;
      while i < |ROLES|
        invariant 0 <= i <= |ROLES|
        invariant step == old(step) + i && !Disturbed(faults, old(step), step)
        invariant passwords.Keys == set k | 0 <= k < i :: ROLES[k]
        invariant forall x :: x in passwords ==>
          if RoleSecret(x) in secrets
          then PasswordIn(x, secrets[RoleSecret(x)], manager.hostname) == Some(passwords[x])
          else passwords[x] == generated[x]
      {
        var role := ROLES[i];
        var ok := Probe();
        if !ok { return None; }
        if RoleSecret(role) !in secrets {
          passwords := passwords[role := generated[role]];
        } else {
          var decoded := PasswordIn(role, secrets[RoleSecret(role)], manager.hostname);
          if decoded.None? { return None; }
          passwords := passwords[role := decoded.value];
        }
        i := i + 1;
      }
      assert passwords.Keys == ALL_ROLES by { assert ROLES[0] == Reader && ROLES[1] == Migrator && ROLES[2] == Seeder; }
      var ok := Probe();
      if !ok || (TargetSecret in secrets && !ReadableTarget(manager, secrets[TargetSecret])) { return None; }
      return Some(Inputs(passwords, ChosenTarget(manager, secrets, freshInstance)));
    }

    /** One step of the write loop: a Secret enters `written` only after its put returned. */
    method PutMissing(name: SecretName, existing: Secrets, wanted: Secrets, written: seq<SecretName>)
      returns (ok: bool, written': seq<SecretName>, ghost orphan: set<SecretName>)
      requires wanted.Keys == ALL_NAMES && name in wanted
      requires Extended(existing, wanted, secrets, written, {})
      modifies this`step, this`secrets
      ensures step >= old(step)
      ensures Extended(existing, wanted, secrets, written', orphan)
      ensures ok ==> orphan == {} && name in secrets && Names(written) <= Names(written') <= Names(written) + {name}
      ensures old(secrets).Keys <= secrets.Keys
      ensures name in existing ==> ok && written' == written && step == old(step)
      ensures name !in existing ==> step == old(step) + 1 && (ok <==> faults(old(step)).Fine?)
      ensures name !in existing && name !in written ==> orphan == if faults(old(step)).LostAfter? then {name} else {}
    {
      ok, written', orphan := true, written, {};
      if name !in existing {
        ExtendedByPut(existing, wanted, secrets, written, name);
        hide Extended;
        ok := PutSecret(name, wanted[name]);
        if ok {
          written' := written + [name];
        } else if name in secrets && name !in written {
          orphan := {name};
        }
      }
    }

    /** The loop over the roles' Secrets. */
    method WriteRoleSecrets(existing: Secrets, wanted: Secrets)
      returns (ok: bool, written: seq<SecretName>, ghost orphan: set<SecretName>)
      requires wanted.Keys == ALL_NAMES && existing == secrets
      modifies this`step, this`secrets
      ensures step >= old(step)
      ensures Extended(existing, wanted, secrets, written, orphan)
      ensures ok ==> forall r :: r in ALL_ROLES ==> RoleSecret(r) in secrets
      ensures ok ==> orphan == {} && Names(written) <= set r | r in ALL_ROLES :: RoleSecret(r)
      ensures ALL_NAMES <= existing.Keys ==> written == []
      // one put for each missing Secret, up to the first that fails
      ensures ok ==> step == old(step) + Missing(existing, 3) && !Disturbed(faults, old(step), step)
      ensures !ok ==> step > old(step) && !Disturbed(faults, old(step), step - 1) && faults(step - 1) != Fine
      ensures step <= old(step) + Missing(existing, 3)
      ensures !ok ==> orphan == Lost(existing, faults, old(step))
    {
      hide Missing, Offset, Lost, Extended;
      RolesInOrder();
      ExtendedNone(existing, wanted);
      MissingCounted(existing);
      OffsetsOfRoles(existing);
      written, orphan, ok := [], {}, true;
      var i := 0;
      while i < |ROLES|
        invariant 0 <= i <= |ROLES| && ok && orphan == {}
        invariant step == old(step) + Missing(existing, i) && !Disturbed(faults, old(step), step)
        invariant Extended(existing, wanted, secrets, written, {})
        invariant forall k :: 0 <= k < i ==> RoleSecret(ROLES[k]) in secrets
        invariant Names(written) <= set k | 0 <= k < i :: RoleSecret(ROLES[k])
        invariant ALL_NAMES <= existing.Keys ==> written == []
      {
        var name := RoleSecret(ROLES[i]);
        NotYetWritten(written, i);
        ghost var at := step;
        ok, written, orphan := PutMissing(name, existing, wanted, written);
        if !ok {
          LostAtFirst(existing, faults, old(step), at);
          return;
        }
        MissingStep(existing, i);
        i := i + 1;
      }
      assert RoleSecret(ROLES[0]) in secrets && RoleSecret(ROLES[1]) in secrets && RoleSecret(ROLES[2]) in secrets;
    }

    /** The protected part of `provision`: write what is missing, then check the contract. */
    method WriteMissingSecrets(inputs: Inputs, existing: Secrets, wanted: Secrets)
      returns (ok: bool, written: seq<SecretName>, ghost orphan: set<SecretName>)
      requires wanted.Keys == ALL_NAMES && existing == secrets
      modifies this`step, this`secrets
      ensures step >= old(step)
      ensures Extended(existing, wanted, secrets, written, orphan)
      ensures ok ==> RoleContract(database, inputs.target) && ALL_NAMES <= secrets.Keys
      ensures ALL_NAMES <= existing.Keys ==> written == []
      ensures !ok ==> Disturbed(faults, old(step), step) || !RoleContract(database, inputs.target)
      // every operation counts
      ensures ok <==> (RoleContract(database, inputs.target)
                       && !Disturbed(faults, old(step), old(step) + Operations(existing)))
      ensures orphan == Lost(existing, faults, old(step)) && (ok ==> orphan == {})
    {
      hide RoleContract, Missing, Lost, Offset, Extended;
      ghost var from := step;
      MissingCounted(existing);
      OffsetsOfRoles(existing);
      ok, written, orphan := WriteRoleSecrets(existing, wanted);
      if !ok { return; }
      ghost var at := step;
      ok := Probe();
      if !ok {
        TargetOffset(existing);
        LostAtFirst(existing, faults, from, at);
        return;
      }
      ok, written, orphan := WriteTarget(existing, wanted, written, from);
      if !ok { return; }
      ok := Probe();
      ok := ok && RoleContract(database, inputs.target);
    }

    /** The put of the document, if it is missing. */
    method WriteTarget(existing: Secrets, wanted: Secrets, written: seq<SecretName>, ghost from: nat)
      returns (ok: bool, written': seq<SecretName>, ghost orphan: set<SecretName>)
      requires wanted.Keys == ALL_NAMES && Extended(existing, wanted, secrets, written, {})
      requires step == from + Missing(existing, 3) + 1 && !Disturbed(faults, from, step)
      requires Names(written) <= set r | r in ALL_ROLES :: RoleSecret(r)
      requires forall r :: r in ALL_ROLES ==> RoleSecret(r) in secrets
      modifies this`step, this`secrets
      ensures step >= old(step) && Extended(existing, wanted, secrets, written', orphan)
      ensures ok ==> ALL_NAMES <= secrets.Keys && !Disturbed(faults, from, step)
      ensures TargetSecret in existing ==> written' == written
      ensures step == old(step) + if TargetSecret in existing then 0 else 1
      ensures !ok ==> Disturbed(faults, from, step)
      ensures orphan == Lost(existing, faults, from) && (ok ==> orphan == {})
    {
      hide Missing, Lost, Extended;
      TargetOffset(existing);
      assert TargetSecret !in written by { assert TargetSecret !in Names(written); }
      ok, written', orphan := PutMissing(TargetSecret, existing, wanted, written);
      if ok {
        NothingLostYet(existing, faults, from);
      } else {
        LostAtFirst(existing, faults, from, old(step));
      }
    }

    /** Best-effort deletion, newest first; a delete that raises is ignored. */
    method DeleteWritten(written: seq<SecretName>)
      modifies this`step, this`secrets
      ensures step >= old(step)
      ensures secrets.Keys <= old(secrets).Keys && forall n :: n in secrets ==> secrets[n] == old(secrets)[n]
      ensures forall n :: n in old(secrets) && n !in Names(written) ==> n in secrets
      ensures ReliableFrom(faults, old(step)) ==> secrets.Keys !! Names(written)
    {
      var i := |written|;
      while i > 0
        invariant 0 <= i <= |written| && step >= old(step)
        invariant secrets.Keys <= old(secrets).Keys && forall n :: n in secrets ==> secrets[n] == old(secrets)[n]
        invariant forall n :: n in old(secrets) && n !in Names(written) ==> n in secrets
        invariant ReliableFrom(faults, old(step)) ==> forall k :: i <= k < |written| ==> written[k] !in secrets
      {
        i := i - 1;
        var _ := DeleteSecret(written[i]);
      }
    }

    method AllGone(written: seq<SecretName>) returns (ok: bool)
      modifies this`step
      ensures step >= old(step)
      ensures ok ==> secrets.Keys !! Names(written)
      ensures ReliableFrom(faults, old(step)) && secrets.Keys !! Names(written) ==> ok
    {
      var i := 0;
      while i < |written|
        modifies this`step
        invariant 0 <= i <= |written| && step >= old(step)
        invariant forall k :: 0 <= k < i ==> written[k] !in secrets
      {
        ok := Probe();
        if !ok || written[i] in secrets { return false; }
        i := i + 1;
      }
      return true;
    }

    /** The `except` branch of `provision`: delete what was written, undo the transaction, and
        read both stores back. */
    method Compensate(before: Database, target: Target, written: seq<SecretName>) returns (exit: ProvisionExit)
      modifies this`step, this`database, this`secrets
      ensures step >= old(step)
      ensures exit == Compensated || exit == CompensationIncomplete
      ensures secrets.Keys <= old(secrets).Keys && forall n :: n in secrets ==> secrets[n] == old(secrets)[n]
      ensures forall n :: n in old(secrets) && n !in Names(written) ==> n in secrets
      ensures database == old(database) ||
              (CompensationNeeded(before) && UndoSql(before, old(database), target) == Some(database))
      ensures exit == Compensated && CompensationNeeded(before) ==>
                ReadsBackAs(before, database) && secrets.Keys !! Names(written)
      ensures ReliableFrom(faults, old(step)) ==> secrets.Keys !! Names(written)
      ensures ReliableFrom(faults, old(step)) && CompensationNeeded(before) ==>
                var undone := UndoSql(before, old(database), target);
                undone.Some? && SameIdentities(undone.value, before) ==> undone == Some(database) && exit == Compensated
      ensures !CompensationNeeded(before) ==> exit == Compensated
    {
      DeleteWritten(written);
      if !CompensationNeeded(before) { return Compensated; }
      var ok := Admin(UndoSql(before, database, target));
      if !ok { return CompensationIncomplete; }
      ok := Probe();
      if !ok || !ReadsBackAs(before, database) { return CompensationIncomplete; }
      ok := AllGone(written);
      return if ok then Compensated else CompensationIncomplete;
    }

    /** What the `except` branch leaves of a run that started from `before` and `existing`. */
    method CompensateRun(before: Database, target: Target, written: seq<SecretName>,
                         ghost passwords: map<Role, string>, ghost existing: Secrets, ghost wanted: Secrets,
                         ghost orphan: set<SecretName>)
      returns (exit: ProvisionExit)
      requires Consistent(before) && MembershipsUnderstood(before) && passwords.Keys == ALL_ROLES
      requires RoleSql(before, passwords, before.logins.Keys, target) == Some(database)
      requires Extended(existing, wanted, secrets, written, orphan) && wanted.Keys == ALL_NAMES
      requires forall r :: r in before.logins ==> RoleSecret(r) in existing
      modifies this`step, this`database, this`secrets
      ensures step >= old(step) && exit in {Compensated, CompensationIncomplete}
      ensures KeepsExisting(before, database) && KeepsSecrets(existing, secrets) && Consistent(database)
      ensures exit == Compensated ==> Restored(before, existing, database, secrets, orphan)
      ensures NewFrom(existing, secrets, wanted)
      ensures ALL_NAMES <= existing.Keys ==> secrets == existing
      ensures RoleContract(before, target) ==> SameIdentities(database, before) && RoleContract(database, target)
      ensures ReliableFrom(faults, old(step)) ==> exit == Compensated && (orphan == {} ==> secrets == existing)
    {
      ghost var mid, granted := secrets, database;
      exit := Compensate(before, target, written);
      SecretsAfterDeletion(existing, wanted, mid, written, orphan, secrets);
      CompensationUndoesProvisioning(before, passwords, target);
      DatabaseAfterCompensation(before, passwords, granted, database, target);
    }

    /** The protected part and its `except` branch, once the transaction has committed. */
    method WriteOrCompensate(ghost passwords: map<Role, string>, inputs: Inputs, before: Database, wanted: Secrets)
      returns (exit: ProvisionExit, ghost orphan: set<SecretName>)
      requires wanted.Keys == ALL_NAMES && passwords.Keys == ALL_ROLES
      requires Consistent(before) && MembershipsUnderstood(before)
      requires RoleSql(before, passwords, before.logins.Keys, inputs.target) == Some(database)
      requires forall r :: r in before.logins ==> RoleSecret(r) in secrets
      modifies this`step, this`database, this`secrets
      ensures step >= old(step) && exit in {Provisioned, Compensated, CompensationIncomplete}
      ensures exit == Provisioned ==>
                && database == old(database) && RoleContract(database, inputs.target) && ALL_NAMES <= secrets.Keys
                && (forall n :: n in wanted && n !in old(secrets) ==> secrets[n] == wanted[n])
      ensures KeepsSecrets(old(secrets), secrets)
      ensures exit != Provisioned ==> KeepsExisting(before, database) && Consistent(database)
      ensures exit == Compensated ==> Restored(before, old(secrets), database, secrets, orphan)
      ensures orphan == Lost(old(secrets), faults, old(step)) && (exit == Provisioned ==> orphan == {})
      ensures NewFrom(old(secrets), secrets, wanted)
      ensures ALL_NAMES <= old(secrets).Keys ==> secrets == old(secrets)
      ensures exit != Provisioned && RoleContract(before, inputs.target) ==>
                SameIdentities(database, before) && RoleContract(database, inputs.target)
      ensures ReliableFrom(faults, old(step)) ==> (exit == Provisioned <==> RoleContract(old(database), inputs.target))
      ensures exit == Provisioned <==> (RoleContract(old(database), inputs.target)
                                        && !Disturbed(faults, old(step), old(step) + Operations(old(secrets))))
      ensures ReliableFrom(faults, old(step)) && exit != Provisioned ==> secrets == old(secrets) && exit == Compensated
      ensures exit != Provisioned && RoleContract(old(database), inputs.target) && !TwoFaults(faults, old(step)) ==>
                exit == Compensated && (orphan == {} ==> secrets == old(secrets))
    {
      hide RoleContract, RoleSql, Extended, KeepsExisting, SameIdentities, Consistent, MembershipsUnderstood, Restored;
      var existing := secrets;
      ghost var from := step;
      var ok, written;
      ok, written, orphan := WriteMissingSecrets(inputs, existing, wanted);
      ExtendedMeans(existing, wanted, secrets, written, orphan);
      if ok {
        return Provisioned, orphan;
      }
      ghost var mid := step;
      FailedBefore(faults, from, mid);
      exit := CompensateRun(before, inputs.target, written, passwords, existing, wanted, orphan);
    }

    /** `provision` from the transaction on. */
    method ProvisionChecked(inputs: Inputs, wanted: Secrets)
      returns (exit: ProvisionExit, ghost orphan: set<SecretName>)
      requires inputs.passwords.Keys == ALL_ROLES && wanted.Keys == ALL_NAMES
      requires Consistent(database) && MembershipsUnderstood(database)
      requires forall r :: r in database.logins ==> RoleSecret(r) in secrets
      requires DocumentOf(secrets, inputs.target) && wanted[TargetSecret] == Enrolment(inputs.target)
      modifies this`step, this`database, this`secrets
      ensures step >= old(step) && exit != Refused
      ensures KeepsExisting(old(database), database) && KeepsSecrets(old(secrets), secrets) && Consistent(database)
      ensures exit == Provisioned ==>
                MeetsContract(database, secrets, inputs.target) && database.logins.Keys == ALL_ROLES
      ensures exit == Provisioned ==> forall r :: r in ALL_ROLES - old(database).logins.Keys ==>
                database.logins[r].password == inputs.passwords[r]
      ensures exit == Provisioned ==> forall n :: n in wanted && n !in old(secrets) ==> secrets[n] == wanted[n]
      ensures NewFrom(old(secrets), secrets, wanted)
      ensures exit == Compensated ==> Restored(old(database), old(secrets), database, secrets, orphan)
      ensures orphan == if exit == GrantFailed then {} else Lost(old(secrets), faults, old(step) + 1)
      ensures exit == Provisioned ==> orphan == {}
      ensures exit == GrantFailed ==> secrets == old(secrets)
      ensures MeetsContract(old(database), old(secrets), inputs.target) ==>
                secrets == old(secrets) && SameIdentities(database, old(database))
                && RoleContract(database, inputs.target)
      ensures ReliableFrom(faults, old(step)) ==>
                (exit == Provisioned <==> old(database).marker in {None, Some(inputs.target.marker)})
      ensures exit == Provisioned <==> (old(database).marker in {None, Some(inputs.target.marker)}
                                        && !Disturbed(faults, old(step), old(step) + 1 + Operations(old(secrets))))
      ensures ReliableFrom(faults, old(step)) && exit != Provisioned ==> secrets == old(secrets) && exit == Compensated
      ensures exit == Provisioned ==> old(database).marker in {None, Some(inputs.target.marker)}
      ensures (exit !in {Provisioned, GrantFailed} && old(database).marker in {None, Some(inputs.target.marker)}
               && !TwoFaults(faults, old(step))) ==> exit == Compensated && (orphan == {} ==> secrets == old(secrets))
      // the grant is the first operation; when its reply is lost the database keeps all it granted
      ensures exit == GrantFailed <==> faults(old(step)) != Fine
      ensures exit == GrantFailed ==>
                database == if faults(old(step)).LostBefore? then old(database) else Granted(old(database), inputs)
    {
      hide RoleContract, Restored, Lost, SameIdentities, MembershipsUnderstood, TwoFaults, KeepsExisting, Consistent,
           RoleSql;
      NothingChanged(database, secrets);
      var before := database;
      ghost var from := step;
      AsOfLater(faults, from, from + 1);
      GrantReachesContract(before, inputs.passwords, inputs.target);
      var ok := Admin(RoleSql(database, inputs.passwords, before.logins.Keys, inputs.target));
      if !ok { return GrantFailed, {}; }
      exit, orphan := WriteOrCompensate(inputs.passwords, inputs, before, wanted);
      ContractRoles(database, inputs.target);
    }

    /** Everything `provision` reads and checks before it changes anything. */
    method Prepare(generated: map<Role, string>, freshInstance: string) returns (r: Option<Inputs>, wanted: Secrets)
      requires generated.Keys == ALL_ROLES && forall r :: r in generated ==> Credential(generated[r])
      requires PlainHost(manager.hostname)
      modifies this`step
      ensures step >= old(step)
      ensures r.Some? ==> step == old(step) + 6
      ensures r.Some? <==> Acceptable(manager, ca, database, secrets) && !Disturbed(faults, old(step), old(step) + 6)
      ensures r.Some? ==>
                && ca.Some? && Acceptable(manager, ca, database, secrets)
                && Carries(wanted, r.value, manager.hostname, ca.value)
                && r.value.target == ChosenTarget(manager, secrets, freshInstance)
                && MembershipsUnderstood(database) && r.value.passwords.Keys == ALL_ROLES
                && (forall x :: x in ALL_ROLES ==> (x in database.logins <==> RoleSecret(x) in secrets))
                && DocumentOf(secrets, r.value.target)
                && (forall x :: x in ALL_ROLES && RoleSecret(x) !in secrets ==> r.value.passwords[x] == generated[x])
      ensures ReliableFrom(faults, old(step)) && Acceptable(manager, ca, database, secrets) ==> r.Some?
    {
      hide PasswordIn;
      wanted := map[];
      var ok := Probe();
      if !ok || !MembershipsUnderstood(database) { return None, wanted; }
      r := ReadOrCreateInputs(generated, freshInstance);
      if r.None? { return None, wanted; }
      ok := Probe();
      if !ok || ca.None? || !SecretsMatchRoles(database, secrets, ca.value) { return None, wanted; }
      wanted := WantedSecrets(r.value, manager.hostname, ca.value);
    }

    /** Every check passes and every read comes through. */
    ghost predicate ReachesGrant(db: Database, stored: Secrets, from: nat) {
      Acceptable(manager, ca, db, stored) && !Disturbed(faults, from, from + 6)
    }

    /** `provision`, for every pattern of failures.  `orphan` is the Secret, if any, whose put
        raised although it took effect: the source cannot know that it has to delete it. */
    method Provision(generated: map<Role, string>, freshInstance: string)
      returns (exit: ProvisionExit, ghost orphan: set<SecretName>)
      requires generated.Keys == ALL_ROLES && forall r :: r in generated ==> Credential(generated[r])
      requires Consistent(database) && PlainHost(manager.hostname)
      modifies this`step, this`database, this`secrets
      ensures step >= old(step)
      // no exit drops a role, changes a credential or touches a Secret that was there before
      ensures KeepsExisting(old(database), database) && KeepsSecrets(old(secrets), secrets) && Consistent(database)
      // normal return: the contract holds and every new credential is the one its Secret carries
      ensures exit == Provisioned ==>
                Succeeded(manager, ca, old(database), old(secrets), database, secrets, generated, freshInstance)
      // to a consumer: the database is under contract, and each role's Secret carries the cluster's CA
      ensures exit == Provisioned ==> ca.Some? && Delivered(database, secrets, ca.value)
      // the compensated exit restores every identity in the database, whatever failed
      ensures exit == Compensated ==> Restored(old(database), old(secrets), database, secrets, orphan)
      ensures orphan == if exit in {Refused, GrantFailed} then {} else Lost(old(secrets), faults, old(step) + 7)
      ensures exit == Provisioned ==> orphan == {}
      // exits before the protected part
      ensures exit == Refused <==> !ReachesGrant(old(database), old(secrets), old(step))
      ensures exit == Refused ==> database == old(database) && secrets == old(secrets)
      ensures exit == GrantFailed ==> secrets == old(secrets)
      // the grant is the seventh operation; when it is the one that fails nothing is compensated, and
      // when its reply is lost all roles exist afterwards
      ensures exit == GrantFailed <==>
                ReachesGrant(old(database), old(secrets), old(step)) && faults(old(step) + 6) != Fine
      ensures exit == GrantFailed ==>
                if faults(old(step) + 6).LostBefore? then database == old(database)
                else GrantLost(manager, ca, old(database), database, secrets,
                               ChosenTarget(manager, old(secrets), freshInstance))
      // after a compensation a later run accepts the target exactly when no role's Secret was lost
      ensures exit == Compensated ==> AcceptedUnless(manager, ca, database, secrets, orphan - {TargetSecret})
      ensures NewDocument(old(secrets), secrets, ChosenTarget(manager, old(secrets), freshInstance))
      // one failure alone is always compensated
      ensures (exit !in {Provisioned, Refused, GrantFailed} && !TwoFaults(faults, old(step))
               && Provisionable(manager, ca, old(database), old(secrets), freshInstance)) ==>
                exit == Compensated && (orphan == {} ==> secrets == old(secrets))
      // provisioning a complete target again changes nothing, whatever fails
      ensures MeetsContract(old(database), old(secrets), ChosenTarget(manager, old(secrets), freshInstance)) ==>
                && secrets == old(secrets) && SameIdentities(database, old(database))
                && MeetsContract(database, secrets, ChosenTarget(manager, secrets, freshInstance))
      // it succeeds on exactly the provisionable states, when none of the operations of a run fails; and
      // undisturbed it otherwise changes nothing
      ensures exit == Provisioned <==>
                (Provisionable(manager, ca, old(database), old(secrets), freshInstance)
                 && !Disturbed(faults, old(step), old(step) + 7 + Operations(old(secrets))))
      ensures ReliableFrom(faults, old(step)) ==>
                (exit == Provisioned <==> Provisionable(manager, ca, old(database), old(secrets), freshInstance))
      ensures ReliableFrom(faults, old(step)) && exit != Provisioned ==>
                secrets == old(secrets) && SameIdentities(database, old(database))
    {
      hide PasswordIn, Acceptable, MembershipsUnderstood, RoleContract, Credential, Carries, Succeeded, Restored,
           KeepsExisting, KeepsSecrets, SameIdentities, TwoFaults, ReliableFrom, Disturbed, Lost,
           GrantLost, AcceptedUnless, NewDocument, NewFrom, Granted, MeetsContract;
      orphan := {};
      ghost var from := step;
      InTwoParts(faults, from, from + 6, from + 7 + Operations(secrets));
      var inputs, wanted := Prepare(generated, freshInstance);
      if inputs.None? {
        NothingDone(manager, ca, database, secrets, faults, from, freshInstance);
        return Refused, {};
      }
      CarriedDocument(wanted, inputs.value, manager.hostname, ca.value);
      ghost var mid := step;
      exit, orphan := ProvisionChecked(inputs.value, wanted);
      AsOfLater(faults, from, mid);
      ContractKept(manager, old(database), database, secrets, inputs.value.target, freshInstance);
      RestoredSame(old(database), old(secrets), database, secrets, orphan);
      LostGrantLeaves(manager, ca.value, old(database), database, old(secrets), inputs.value);
      CompensationLeaves(manager, ca.value, old(database), old(secrets), database, secrets, orphan, faults, mid + 1,
                         wanted,
                         inputs.value, freshInstance);
      if exit == Provisioned {
        Success(manager, ca.value, old(database), old(secrets), database, secrets, generated, inputs.value, wanted,
                freshInstance);
        SuccessDelivers(manager, ca.value, old(database), old(secrets), database, secrets, generated, freshInstance);
      }
    }

    /** Two runs on the same target.  Whatever disturbs the second one, the credentials of a first run
        that returned normally stand in both stores, under the contract; and nothing that stood at
        the start is ever changed. */
    method ProvisionTwice(generated: map<Role, string>, instance: string, generated': map<Role, string>,
                          instance': string)
      returns (first: ProvisionExit, second: ProvisionExit)
      requires generated.Keys == ALL_ROLES && forall r :: r in generated ==> Credential(generated[r])
      requires generated'.Keys == ALL_ROLES && forall r :: r in generated' ==> Credential(generated'[r])
      requires Consistent(database) && PlainHost(manager.hostname)
      modifies this`step, this`database, this`secrets
      ensures KeepsExisting(old(database), database) && KeepsSecrets(old(secrets), secrets)
      ensures ReliableFrom(faults, old(step)) ==>
                (first == Provisioned <==> Provisionable(manager, ca, old(database), old(secrets), instance))
      ensures first == Refused <==> !ReachesGrant(old(database), old(secrets), old(step))
      ensures first == GrantFailed <==>
                ReachesGrant(old(database), old(secrets), old(step)) && faults(old(step) + 6) != Fine
      ensures ReliableFrom(faults, old(step)) && first == Provisioned ==> second == Provisioned
      ensures first == Provisioned ==>
                && MeetsContract(database, secrets, ChosenTarget(manager, old(secrets), instance))
                && NewCredentials(manager, old(database), old(secrets), database, secrets, generated)
    {
      hide Provisionable, RoleContract, PasswordIn, Credential, Restored, Consistent, KeepsExisting,
           KeepsSecrets, SameIdentities, NewCredentials, Paired, TwoFaults;
      ghost var before, existing := database, secrets;
      ghost var orphan;
      first, orphan := Provision(generated, instance);
      ghost var db, stored := database, secrets;
      second, orphan := Provision(generated', instance');
      KeepsTransitive(before, db, database, existing, stored, secrets);
      if first == Provisioned {
        ghost var target := ChosenTarget(manager, existing, instance);
        ContractIsConsistent(manager, db, stored, target, instance');
        SameCredentials(manager, before, existing, db, database, stored, generated);
      }
    }

    /** The one failure after which no later run succeeds: the grant's reply is lost, unless all roles
        were there and the document is known; or the put of a role's Secret loses its reply. */
    ghost predicate Strands(db: Database, stored: Secrets, from: nat, documentKnown: bool) {
      && ReachesGrant(db, stored, from)
      && (if faults(from + 6).LostAfter? then !(ALL_ROLES <= db.logins.Keys && documentKnown)
          else faults(from + 6).Fine? && !(Lost(stored, faults, from + 7) <= {TargetSecret}))
    }

    /** What a first run with at most one failure leaves for a later one. */
    method FirstRun(generated: map<Role, string>, instance: string, ghost instance': string)
      returns (first: ProvisionExit)
      requires generated.Keys == ALL_ROLES && forall r :: r in generated ==> Credential(generated[r])
      requires Consistent(database) && PlainHost(manager.hostname)
      modifies this`step, this`database, this`secrets
      ensures KeepsExisting(old(database), database) && KeepsSecrets(old(secrets), secrets) && Consistent(database)
      ensures (!TwoFaults(faults, old(step))
               && Provisionable(manager, ca, old(database), old(secrets), instance)
               && Provisionable(manager, ca, old(database), old(secrets), instance')) ==>
                (Provisionable(manager, ca, database, secrets, instance') <==>
                 !Strands(old(database), old(secrets), old(step),
                          TargetSecret in old(secrets) || instance == instance'))
    {
      hide Provisionable, RoleContract, PasswordIn, Credential, MeetsContract, Consistent, NewCredentials, Paired,
           Acceptable,
           Restored, Lost, KeepsExisting, KeepsSecrets, SameIdentities, TwoFaults, NewDocument, AcceptedUnless,
           GrantLost;
      ghost var before, existing, orphan := database, secrets, {};
      first, orphan := Provision(generated, instance);
      if Provisionable(manager, ca, before, existing,
                       instance) && Provisionable(manager, ca, before, existing, instance') {
        AfterCompensation(manager, ca, before, existing, database, secrets, orphan, instance, instance');
        AfterLostGrant(manager, ca, before, existing, database, instance, instance');
      }
    }

    /** A first run in which at most one operation fails, before or after its effect, and an undisturbed
        second one: the second succeeds, wherever the first could have, exactly unless that failure
        strands the target. */
    method ProvisionRetried(generated: map<Role, string>, instance: string, generated': map<Role, string>,
                            instance': string)
      returns (second: ProvisionExit, again: Cluster)
      requires generated.Keys == ALL_ROLES && forall r :: r in generated ==> Credential(generated[r])
      requires generated'.Keys == ALL_ROLES && forall r :: r in generated' ==> Credential(generated'[r])
      requires Consistent(database) && PlainHost(manager.hostname)
      modifies this`step, this`database, this`secrets
      ensures again.manager == manager && again.ca == ca
      ensures KeepsExisting(old(database), again.database) && KeepsSecrets(old(secrets), again.secrets)
      ensures second == Provisioned <==> Provisionable(manager, ca, database, secrets, instance')
      ensures (!TwoFaults(faults, old(step))
               && Provisionable(manager, ca, old(database), old(secrets), instance)
               && Provisionable(manager, ca, old(database), old(secrets), instance')) ==>
                (second == Provisioned <==>
                 !Strands(old(database), old(secrets), old(step),
                          TargetSecret in old(secrets) || instance == instance'))
      ensures second == Provisioned ==>
                MeetsContract(again.database, again.secrets, ChosenTarget(manager, secrets, instance'))
    {
      hide Provisionable, RoleContract, PasswordIn, Credential, MeetsContract, Consistent, NewCredentials, Paired,
           Acceptable,
           Restored, Lost, SameIdentities, TwoFaults, NewDocument, AcceptedUnless, GrantLost, Cluster.Strands;
      var _ := FirstRun(generated, instance, instance');
      ghost var orphan;
      again := new Cluster(manager, ca, n => Fine, database, secrets);
      second, orphan := again.Provision(generated', instance');
    }
  }

  /** After a compensated run with a known fate of its Secrets, what was provisionable still is,
      exactly unless a role's Secret was lost. */
  lemma AfterCompensation(m: Manager, ca: Option<string>, db: Database, secrets: Secrets, db': Database,
                          secrets': Secrets,
                          orphan: set<SecretName>, instance: string, instance': string)
    requires Provisionable(m, ca, db, secrets, instance) && Provisionable(m, ca, db, secrets, instance')
    ensures (Restored(db, secrets, db', secrets',
                      orphan) && AcceptedUnless(m, ca, db', secrets', orphan - {TargetSecret})
             && NewDocument(secrets, secrets', ChosenTarget(m, secrets, instance))) ==>
              (Provisionable(m, ca, db', secrets', instance') <==> orphan <= {TargetSecret})
  {
    hide Acceptable;
    assert orphan - {TargetSecret} == {} <==> orphan <= {TargetSecret};
  }

  /** After a grant whose reply is lost, what was provisionable still is exactly when all roles were
      there and the document is known: the marker then names it. */
  lemma AfterLostGrant(m: Manager, ca: Option<string>, db: Database, secrets: Secrets, db': Database, instance: string,
                       instance': string)
    requires Provisionable(m, ca, db, secrets, instance) && Provisionable(m, ca, db, secrets, instance')
    ensures GrantLost(m, ca, db, db', secrets, ChosenTarget(m, secrets, instance)) ==>
              (Provisionable(m, ca, db', secrets, instance') <==>
               ALL_ROLES <= db.logins.Keys && (TargetSecret in secrets || instance == instance'))
  {
    hide PasswordIn, SecretsMatchRoles;
  }

  lemma EmptyReachesGrant(c: Cluster)
    requires c.database == Database(map[], {}, None) && c.secrets == map[] && c.ca.Some?
    requires forall n: nat :: n < 6 ==> c.faults(n) == Fine
    ensures c.ReachesGrant(c.database, c.secrets, 0)
    ensures forall instance :: Provisionable(c.manager, c.ca, c.database, c.secrets, instance)
  {
  }

  /** An empty target whose grant loses its reply: the roles stay without their Secrets, and an
      undisturbed second run is refused. */
  method LostGrantStrands(m: Manager, ca: string, passwords: map<Role, string>, instance: string)
    returns (first: ProvisionExit, second: ProvisionExit, c: Cluster)
    requires passwords.Keys == ALL_ROLES && forall r :: r in passwords ==> Credential(passwords[r])
    requires PlainHost(m.hostname)
    ensures first == GrantFailed && c.database.logins.Keys == ALL_ROLES && c.secrets == map[]
    ensures second == Refused
  {
    hide PasswordIn, Credential, PlainHost, Provisionable, Restored, Succeeded, SameIdentities, MeetsContract,
         Acceptable, TwoFaults, KeepsExisting;
    c := new Cluster(m, Some(ca), n => if n == 6 then LostAfter else Fine, Database(map[], {}, None), map[]);
    EmptyReachesGrant(c);
    ghost var orphan;
    first, orphan := c.Provision(passwords, instance);
    var again := new Cluster(m, Some(ca), n => Fine, c.database, c.secrets);
    StrandedIsRefused(again);
    second, orphan := again.Provision(passwords, instance);
  }

  lemma StrandedIsRefused(c: Cluster)
    requires c.database.logins.Keys == ALL_ROLES && c.secrets == map[]
    ensures !c.ReachesGrant(c.database, c.secrets, c.step)
  {
    assert Reader in c.database.logins && RoleSecret(Reader) !in c.secrets;
  }

  /** An empty target on which the first put loses its reply: the run is compensated, and the Secret
      that the source never learned of is still there. */
  method LostPutLeavesOrphan(m: Manager, ca: string, passwords: map<Role, string>, instance: string)
    returns (exit: ProvisionExit, c: Cluster)
    requires passwords.Keys == ALL_ROLES && forall r :: r in passwords ==> Credential(passwords[r])
    requires PlainHost(m.hostname)
    ensures exit == Compensated && c.database.logins == map[] && c.secrets.Keys == {RoleSecret(Reader)}
  {
    hide PasswordIn, Credential, PlainHost, Provisionable, Succeeded, MeetsContract, Acceptable, KeepsExisting;
    c := new Cluster(m, Some(ca), n => if n == 7 then LostAfter else Fine, Database(map[], {}, None), map[]);
    EmptyReachesGrant(c);
    assert ReliableFrom(c.faults, 8) && !TwoFaults(c.faults, 0);
    LostAtFirst(c.secrets, c.faults, 7, 7);
    assert 7 == 7 + Offset(c.secrets, RoleSecret(Reader));
    ghost var orphan;
    exit, orphan := c.Provision(passwords, instance);
  }

  lemma KeepsTransitive(a: Database, b: Database, c: Database, r: Secrets, s: Secrets, t: Secrets)
    ensures KeepsExisting(a, b) && KeepsExisting(b, c) ==> KeepsExisting(a, c)
    ensures KeepsSecrets(r, s) && KeepsSecrets(s, t) ==> KeepsSecrets(r, t)
  {
  }

  /** The credentials stand as long as identities and Secrets do. */
  lemma SameCredentials(m: Manager, before: Database, existing: Secrets, db: Database, db': Database, secrets: Secrets,
                        generated: map<Role, string>)
    requires generated.Keys == ALL_ROLES && SameIdentities(db', db)
    requires NewCredentials(m, before, existing, db, secrets, generated)
    ensures NewCredentials(m, before, existing, db', secrets, generated)
  {
    hide PasswordIn;
  }
}
