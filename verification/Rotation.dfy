/** Rotation of the two elevated credentials (`rotate` in the administration script): the database
    and the Secrets change together or go back together, and the old passwords survive in a
    protected recovery file from before the first change. */
module Rotation {
  import opened Common
  import opened CredentialUrl
  import opened Administration

  const ADMIN_ROLES: set<Role> := {Migrator, Seeder}

  datatype RotateExit =
    | Declined            // raised before the recovery file exists
    | RecoveryUnwritten  // the recovery file could not be created or written
    | Aborted            // raised after the recovery file, before the first change
    | Rotated            // normal return
    | Restored           // "previous credentials restored"
    | Incomplete         // "automatic recovery was incomplete"

  /** The file named by POSTGRES_ROLE_RECOVERY_FILE. */
  class RecoveryFile {
    const absolute: bool
    var exists_: bool
    var passwords: map<Role, string>

    constructor (absolute: bool, present: bool)
      ensures this.absolute == absolute && exists_ == present && passwords == map[]
    {
      this.absolute, this.exists_, this.passwords := absolute, present, map[];
    }

    /** Exclusive creation followed by the write; a failed write leaves the file without content. */
    method Store(values: map<Role, string>, fault: Fault) returns (ok: bool)
      requires !exists_
      modifies this
      ensures ok <==> fault.Fine?
      ensures ok ==> exists_ && passwords == values
    {
      exists_ := !fault.LostBefore?;
      passwords := if fault.Fine? then values else map[];
      ok := fault.Fine?;
    }
  }

  /** The passwords that the stored Secrets of the elevated roles carry. */
  ghost predicate Decodes(host: string, secrets: Secrets, passwords: map<Role, string>) {
    && passwords.Keys == ADMIN_ROLES
    && forall r :: r in ADMIN_ROLES ==>
         RoleSecret(r) in secrets && PasswordIn(r, secrets[RoleSecret(r)], host) == Some(passwords[r])
  }

  /** Every workload Secret is there, and every Secret decodes. */
  ghost predicate Complete(m: Manager, secrets: Secrets) {
    ReadableInputs(m, secrets) && forall r :: r in ALL_ROLES ==> RoleSecret(r) in secrets
  }

  /** `verify`: complete Secrets, the contract, and a login per role with the password its Secret
      carries.  `probesPass` stands for the SQL denials that the logins then observe. */
  ghost predicate Verified(m: Manager, ca: Option<string>, db: Database, secrets: Secrets,
                           freshInstance: string, probesPass: bool) {
    && Complete(m, secrets) && ca.Some? && probesPass
    && RoleContract(db, ChosenTarget(m, secrets, freshInstance))
    && Paired(m, db, secrets)
  }

  /** The elevated roles carry the given passwords; everything else is as before. */
  ghost predicate WithPasswords(before: Database, after: Database, passwords: map<Role, string>) {
    && after.logins.Keys == before.logins.Keys && passwords.Keys <= after.logins.Keys
    && after.memberships == before.memberships && after.marker == before.marker
    && forall r :: r in after.logins ==>
         after.logins[r] == if r in passwords then before.logins[r].(password := passwords[r]) else before.logins[r]
  }

  /** The elevated roles carry the former Secrets' passwords, which is the old database exactly when it
      agreed with them. */
  ghost predicate WentBack(before: Database, after: Database, passwords: map<Role, string>) {
    && WithPasswords(before, after, passwords)
    && (after == before <==>
        forall r :: r in passwords ==> r in before.logins && before.logins[r].password == passwords[r])
  }

  /** Only the elevated roles' passwords may differ, each the old one, the new one or the one its
      old Secret carried. */
  ghost predicate Between(before: Database, after: Database, old_: map<Role, string>, new_: map<Role, string>) {
    && after.logins.Keys == before.logins.Keys
    && after.memberships == before.memberships && after.marker == before.marker
    && forall r :: r in after.logins ==>
         || after.logins[r] == before.logins[r]
         || (r in ADMIN_ROLES && r in old_ && r in new_
             && after.logins[r].password in {old_[r], new_[r]}
             && after.logins[r].compliant == before.logins[r].compliant)
  }

  /** Only the elevated roles' Secrets may differ, each the old one or the replacement. */
  ghost predicate SecretsBetween(before: Secrets, after: Secrets, replacements: map<Role, Secret>) {
    && after.Keys == before.Keys
    && forall n :: n in after ==>
         || after[n] == before[n]
         || (n.RoleSecret? && n.role in ADMIN_ROLES && n.role in replacements && after[n] == replacements[n.role])
  }

  lemma SetPasswordsMeansWithPasswords(db: Database, passwords: map<Role, string>)
    ensures SetPasswords(db, passwords).Some? <==> passwords.Keys <= db.logins.Keys
    ensures SetPasswords(db, passwords).Some? ==> WithPasswords(db, SetPasswords(db, passwords).value, passwords)
  {
  }

  method Verify(c: Cluster, freshInstance: string, probesPass: bool) returns (ok: bool)
    modifies c`step
    ensures c.step >= old(c.step)
    // seven operations, and any of them may fail
    ensures ok <==> (Verified(c.manager, c.ca, c.database, c.secrets, freshInstance, probesPass)
                     && !Disturbed(c.faults, old(c.step), old(c.step) + 7))
  {
    hide PasswordIn, Disturbed, Verified, Complete, RoleContract, ReadableInputs, ReliableFrom;
    OperationsOfVerification(c.faults, c.step);
    VerifiedMeans(c.manager, c.ca, c.database, c.secrets, freshInstance, probesPass);
    var read := c.ReadOrCreateInputs(map[Reader := "", Migrator := "", Seeder := ""], freshInstance);
    if read.None? { return false; }
    var inputs := read.value;
    VerifiedBy(c.manager, c.ca, c.database, c.secrets, freshInstance, probesPass, inputs);
    if exists r :: r in ALL_ROLES && RoleSecret(r) !in c.secrets { return false; }
    ok := c.Probe();
    if !ok || !RoleContract(c.database, inputs.target) { return false; }
    ok := c.Probe();
    if !ok || c.ca.None? { return false; }
    ok := c.Probe();
    // one login per role, with the password its Secret carries
    ok := ok && probesPass && forall r :: r in ALL_ROLES ==> c.database.logins[r].password == inputs.passwords[r];
  }

  lemma VerifiedMeans(m: Manager, ca: Option<string>, db: Database, secrets: Secrets, freshInstance: string,
                      probesPass: bool)
    ensures Verified(m, ca, db, secrets, freshInstance, probesPass) ==> ReadableInputs(m, secrets)
  {
    hide ReadableInputs;
  }

  /** Verification in terms of what was read. */
  lemma VerifiedBy(m: Manager, ca: Option<string>, db: Database, secrets: Secrets, freshInstance: string,
                   probesPass: bool, inputs: Inputs)
    requires ReadableInputs(m, secrets) && inputs.target == ChosenTarget(m, secrets, freshInstance)
    requires inputs.passwords.Keys == ALL_ROLES && forall r :: r in ALL_ROLES && RoleSecret(r) in secrets ==>
               PasswordIn(r, secrets[RoleSecret(r)], m.hostname) == Some(inputs.passwords[r])
    ensures RoleContract(db, inputs.target) ==> ALL_ROLES <= db.logins.Keys
    ensures Verified(m, ca, db, secrets, freshInstance, probesPass) <==>
              && (forall r :: r in ALL_ROLES ==> RoleSecret(r) in secrets) && ca.Some? && probesPass
              && RoleContract(db, inputs.target)
              && forall r :: r in ALL_ROLES ==> r in db.logins && db.logins[r].password == inputs.passwords[r]
  {
    hide PasswordIn, ReadableInputs;
  }

  lemma OperationsOfVerification(faults: nat -> Fault, from: nat)
    ensures Disturbed(faults, from, from + 7) <==>
              || Disturbed(faults, from, from + 4) || !faults(from + 4).Fine? || !faults(from + 5).Fine?
              || !faults(from + 6).Fine?
  {
  }

  /** Puts one Secret for each elevated role, stopping at the first that raises. */
  method PutAll(c: Cluster, values: map<Role, Secret>) returns (ok: bool)
    requires values.Keys == ADMIN_ROLES && forall r :: r in ADMIN_ROLES ==> RoleSecret(r) in c.secrets
    modifies c`step, c`secrets
    ensures c.step >= old(c.step)
    ensures SecretsBetween(old(c.secrets), c.secrets, values)
    ensures ok ==> forall r :: r in ADMIN_ROLES ==> c.secrets[RoleSecret(r)] == values[r]
    ensures ok <==> !Disturbed(c.faults, old(c.step), old(c.step) + 2)
    ensures ok ==> c.step == old(c.step) + 2
  {
    ok := c.PutSecret(RoleSecret(Migrator), values[Migrator]);
    if !ok { return; }
    ok := c.PutSecret(RoleSecret(Seeder), values[Seeder]);
  }

  /** The protected part of `rotate`. */
  method Apply(c: Cluster, replacements: map<Role, string>, values: map<Role, Secret>,
               freshInstance: string, probesPass: bool) returns (ok: bool)
    requires replacements.Keys == values.Keys == ADMIN_ROLES
    requires forall r :: r in ADMIN_ROLES ==> RoleSecret(r) in c.secrets
    modifies c`step, c`database, c`secrets
    ensures c.step >= old(c.step)
    ensures c.database == old(c.database) || WithPasswords(old(c.database), c.database, replacements)
    ensures SecretsBetween(old(c.secrets), c.secrets, values)
    ensures ok ==>
              && WithPasswords(old(c.database), c.database, replacements)
              && (forall r :: r in ADMIN_ROLES ==> c.secrets[RoleSecret(r)] == values[r])
              && Verified(c.manager, c.ca, c.database, c.secrets, freshInstance, probesPass)
    ensures ReliableFrom(c.faults, old(c.step)) && ADMIN_ROLES <= old(c.database).logins.Keys && !ok ==>
              && WithPasswords(old(c.database), c.database, replacements)
              && (forall r :: r in ADMIN_ROLES ==> c.secrets[RoleSecret(r)] == values[r])
              && !Verified(c.manager, c.ca, c.database, c.secrets, freshInstance, probesPass)
    ensures !Disturbed(c.faults, old(c.step), old(c.step) + 10) && ADMIN_ROLES <= old(c.database).logins.Keys ==>
              && WithPasswords(old(c.database), c.database, replacements)
              && (forall r :: r in ADMIN_ROLES ==> c.secrets[RoleSecret(r)] == values[r])
              && (ok <==> Verified(c.manager, c.ca, c.database, c.secrets, freshInstance, probesPass))
    ensures ok ==> !Disturbed(c.faults, old(c.step), old(c.step) + 10)
  {
    hide Verified, WithPasswords, SetPasswords;
    SetPasswordsMeansWithPasswords(c.database, replacements);
    ok := c.Admin(SetPasswords(c.database, replacements));
    if !ok { return; }
    ok := PutAll(c, values);
    if !ok { return; }
    ok := Verify(c, freshInstance, probesPass);
  }

  /** The `except` branch of `rotate`. */
  method Recover(c: Cluster, passwords: map<Role, string>, values: map<Role, Secret>) returns (exit: RotateExit)
    requires passwords.Keys == values.Keys == ADMIN_ROLES
    requires forall r :: r in ADMIN_ROLES ==> RoleSecret(r) in c.secrets
    modifies c`step, c`database, c`secrets
    ensures c.step >= old(c.step) && exit in {Restored, Incomplete}
    ensures c.database == old(c.database) || WithPasswords(old(c.database), c.database, passwords)
    ensures SecretsBetween(old(c.secrets), c.secrets, values)
    ensures exit == Restored ==>
              && WithPasswords(old(c.database), c.database, passwords)
              && (forall r :: r in ADMIN_ROLES ==> c.secrets[RoleSecret(r)] == values[r])
    ensures ReliableFrom(c.faults, old(c.step)) && ADMIN_ROLES <= old(c.database).logins.Keys ==> exit == Restored
  {
    hide WithPasswords, SetPasswords;
    SetPasswordsMeansWithPasswords(c.database, passwords);
    var ok := c.Admin(SetPasswords(c.database, passwords));
    if !ok { return Incomplete; }
    ok := PutAll(c, values);
    return if ok then Restored else Incomplete;
  }

  lemma RestoredDatabase(before: Database, mid: Database, after: Database,
                         replacements: map<Role, string>, passwords: map<Role, string>)
    requires replacements.Keys == passwords.Keys == ADMIN_ROLES
    requires mid == before || WithPasswords(before, mid, replacements)
    requires after == mid || WithPasswords(mid, after, passwords)
    ensures Between(before, after, passwords, replacements)
    ensures WithPasswords(mid, after, passwords) ==> WithPasswords(before, after, passwords)
    ensures WithPasswords(mid, after, passwords) ==>
              (after == before <==> forall r :: r in ADMIN_ROLES ==> before.logins[r].password == passwords[r])
  {
    if WithPasswords(mid, after, passwords) {
      assert forall r :: r in ADMIN_ROLES ==> after.logins[r].password == passwords[r];
      if forall r :: r in ADMIN_ROLES ==> before.logins[r].password == passwords[r] {
        assert after.logins == before.logins;
      }
    }
  }

  lemma RestoredSecrets(before: Secrets, mid: Secrets, after: Secrets,
                        replacements: map<Role, Secret>, values: map<Role, Secret>)
    requires replacements.Keys == values.Keys == ADMIN_ROLES
    requires SecretsBetween(before, mid, replacements) && SecretsBetween(mid, after, values)
    requires forall r :: r in ADMIN_ROLES ==> RoleSecret(r) in before && values[r] == before[RoleSecret(r)]
    ensures SecretsBetween(before, after, replacements)
    ensures (forall r :: r in ADMIN_ROLES ==> after[RoleSecret(r)] == values[r]) ==> after == before
  {
  }

  /** What an undisturbed rotation needs: everything `verify` asks for, except that the elevated
      roles' passwords may have drifted from their Secrets. */
  ghost predicate Rotatable(m: Manager, ca: Option<string>, db: Database, secrets: Secrets,
                            freshInstance: string, probesPass: bool) {
    && Complete(m, secrets) && ca.Some? && probesPass
    && RoleContract(db, ChosenTarget(m, secrets, freshInstance))
    && PasswordIn(Reader, secrets[RoleSecret(Reader)], m.hostname) == Some(db.logins[Reader].password)
  }

  /** With the replacements in both stores, `verify` accepts exactly the rotatable states. */
  lemma VerifiedAfterApply(m: Manager, ca: Option<string>, before: Database, after: Database, secrets: Secrets,
                           secrets': Secrets, replacements: map<Role, string>, values: map<Role, Secret>,
                           freshInstance: string, probesPass: bool)
    requires WithPasswords(before, after, replacements) && replacements.Keys == values.Keys == ADMIN_ROLES
    requires SecretsBetween(secrets, secrets', values) && Complete(m, secrets)
    requires forall r :: r in ADMIN_ROLES ==> secrets'[RoleSecret(r)] == values[r]
    requires forall r :: r in ADMIN_ROLES ==> PasswordIn(r, values[r], m.hostname) == Some(replacements[r])
    ensures Verified(m, ca, after, secrets', freshInstance, probesPass) <==>
            Rotatable(m, ca, before, secrets, freshInstance, probesPass)
  {
    hide PasswordIn;
    assert secrets'[RoleSecret(Reader)] == secrets[RoleSecret(Reader)];
    assert TargetSecret in secrets ==> secrets'[TargetSecret] == secrets[TargetSecret];
  }

  /** The replacement Secrets. */
  method ReplacementSecrets(replacements: map<Role, string>, host: string, ca: string)
    returns (values: map<Role, Secret>)
    requires PlainHost(host) && replacements.Keys == ADMIN_ROLES
    requires forall r :: r in ADMIN_ROLES ==> Credential(replacements[r])
    ensures values.Keys == ADMIN_ROLES
    ensures forall r :: r in ADMIN_ROLES ==> PasswordIn(r, values[r], host) == Some(replacements[r])
  {
    hide PasswordIn;
    var migrator := SecretFor(Migrator, replacements[Migrator], host, ca);
    var seeder := SecretFor(Seeder, replacements[Seeder], host, ca);
    return map[Migrator := migrator, Seeder := seeder];
  }

  /** The stored passwords, when every Secret is there and decodes. */
  method ReadStored(c: Cluster, freshInstance: string) returns (r: Option<map<Role, string>>)
    modifies c`step
    ensures c.step >= old(c.step)
    ensures r.Some? ==> Decodes(c.manager.hostname, c.secrets, r.value)
    ensures r.Some? ==> c.step == old(c.step) + 4
    ensures r.Some? <==> Complete(c.manager, c.secrets) && !Disturbed(c.faults, old(c.step), old(c.step) + 4)
  {
    hide PasswordIn;
    var read := c.ReadOrCreateInputs(map[Reader := "", Migrator := "", Seeder := ""], freshInstance);
    if read.None? || exists x :: x in ALL_ROLES && RoleSecret(x) !in c.secrets { return None; }
    return Some(map x | x in ADMIN_ROLES :: read.value.passwords[x]);
  }

  /** `rotate`, for every pattern of failures. */
  method Rotate(c: Cluster, file: RecoveryFile, fileFault: Fault, replacements: map<Role, string>,
                freshInstance: string, probesPass: bool)
    returns (exit: RotateExit, ghost newSecrets: map<Role, Secret>)
    requires PlainHost(c.manager.hostname) && replacements.Keys == ADMIN_ROLES
    requires forall r :: r in ADMIN_ROLES ==> Credential(replacements[r])
    modifies c`step, c`database, c`secrets, file
    // before the first change
    ensures exit == Declined ==> unchanged(file)
    ensures exit in {Declined, RecoveryUnwritten, Aborted} ==>
              c.database == old(c.database) && c.secrets == old(c.secrets)
    // every later exit leaves the old passwords in the recovery file
    ensures exit !in {Declined, RecoveryUnwritten} ==>
              file.exists_ && Decodes(c.manager.hostname, old(c.secrets), file.passwords)
    ensures exit !in {Declined, RecoveryUnwritten, Aborted} ==>
              newSecrets.Keys == ADMIN_ROLES && forall r :: r in ADMIN_ROLES ==>
                PasswordIn(r, newSecrets[r], c.manager.hostname) == Some(replacements[r])
    // normal return: both stores carry the replacements, and nothing else changed
    ensures exit == Rotated ==>
              && WithPasswords(old(c.database), c.database, replacements)
              && SecretsBetween(old(c.secrets), c.secrets, newSecrets)
              && (forall r :: r in ADMIN_ROLES ==> c.secrets[RoleSecret(r)] == newSecrets[r])
              && Paired(c.manager, c.database, c.secrets)
              && UnderContract(old(c.database), ChosenTarget(c.manager, old(c.secrets), freshInstance).marker)
    // restored: the Secrets are the old ones and the database carries what they say
    ensures exit == Restored ==>
              c.secrets == old(c.secrets) && WentBack(old(c.database), c.database, file.passwords)
    // double failure: only elevated credentials differ, each old or new
    ensures exit == Incomplete ==>
              && Between(old(c.database), c.database, file.passwords, replacements)
              && SecretsBetween(old(c.secrets), c.secrets, newSecrets)
    // it succeeds on exactly the rotatable states, when none of its operations fails
    ensures exit == Rotated <==>
              (fileFault.Fine? && old(file.absolute && !file.exists_)
               && Rotatable(c.manager, c.ca, old(c.database), old(c.secrets), freshInstance, probesPass)
               && !Disturbed(c.faults, old(c.step), old(c.step) + 15))
    // and undisturbed, from complete Secrets, it never ends in between: what it does not accept it restores
    ensures (ReliableFrom(c.faults, old(c.step)) && fileFault.Fine? && old(file.absolute && !file.exists_) && c.ca.Some?
             && Complete(c.manager, old(c.secrets)) && ADMIN_ROLES <= old(c.database).logins.Keys) ==>
              exit in {Rotated, Restored}
  {
    hide PasswordIn, WithPasswords, Between, SecretsBetween, Paired, Complete, Rotatable, UnderContract, WentBack,
         Disturbed, ReliableFrom;
    newSecrets := map[];
    OperationsOfRotation(c.faults, c.step);
    RotatableMeans(c.manager, c.ca, c.database, c.secrets, freshInstance, probesPass);
    var stored := ReadStored(c, freshInstance);
    if stored.None? || !file.absolute || file.exists_ { return Declined, newSecrets; }
    var ok := file.Store(stored.value, fileFault);
    if !ok { return RecoveryUnwritten, newSecrets; }
    ok := c.Probe();
    if !ok || c.ca.None? { return Aborted, newSecrets; }
    var values := ReplacementSecrets(replacements, c.manager.hostname, c.ca.value);
    newSecrets := values;
    exit := ApplyOrRecover(c, stored.value, replacements, values, freshInstance, probesPass);
  }

  /** Four reads, the one for the CA, and the ten operations of the protected part. */
  lemma OperationsOfRotation(faults: nat -> Fault, from: nat)
    ensures Disturbed(faults, from, from + 15) <==>
              Disturbed(faults, from, from + 4) || !faults(from + 4).Fine? || Disturbed(faults, from + 5, from + 15)
    ensures ReliableFrom(faults, from) ==> ReliableFrom(faults, from + 5) && !Disturbed(faults, from, from + 15)
  {
  }

  lemma RotatableMeans(m: Manager, ca: Option<string>, db: Database, secrets: Secrets, freshInstance: string,
                       probesPass: bool)
    ensures Rotatable(m, ca, db, secrets, freshInstance, probesPass) ==> Complete(m, secrets) && ca.Some?
  {
    hide PasswordIn, ReadableInputs;
  }

  /** The protected part and its `except` branch. */
  method ApplyOrRecover(c: Cluster, passwords: map<Role, string>, replacements: map<Role, string>,
                        values: map<Role, Secret>, freshInstance: string, probesPass: bool)
    returns (exit: RotateExit)
    requires passwords.Keys == replacements.Keys == values.Keys == ADMIN_ROLES
    requires Complete(c.manager, c.secrets)
    requires forall r :: r in ADMIN_ROLES ==> PasswordIn(r, values[r], c.manager.hostname) == Some(replacements[r])
    modifies c`step, c`database, c`secrets
    ensures c.step >= old(c.step) && exit in {Rotated, Restored, Incomplete}
    ensures exit == Rotated ==>
              && WithPasswords(old(c.database), c.database, replacements)
              && SecretsBetween(old(c.secrets), c.secrets, values)
              && (forall r :: r in ADMIN_ROLES ==> c.secrets[RoleSecret(r)] == values[r])
              && Paired(c.manager, c.database, c.secrets)
              && UnderContract(old(c.database), ChosenTarget(c.manager, old(c.secrets), freshInstance).marker)
    ensures exit == Restored ==>
              c.secrets == old(c.secrets) && WentBack(old(c.database), c.database, passwords)
    ensures exit == Incomplete ==>
              && Between(old(c.database), c.database, passwords, replacements)
              && SecretsBetween(old(c.secrets), c.secrets, values)
    ensures exit == Rotated <==>
              (Rotatable(c.manager, c.ca, old(c.database), old(c.secrets), freshInstance, probesPass)
               && !Disturbed(c.faults, old(c.step), old(c.step) + 10))
    ensures ReliableFrom(c.faults, old(c.step)) && ADMIN_ROLES <= old(c.database).logins.Keys ==> exit != Incomplete
  {
    hide PasswordIn, ReadableInputs, Verified, RoleContract, Paired, WithPasswords, Between, WentBack, UnderContract;
    ghost var before, existing := c.database, c.secrets;
    var former: map<Role, Secret> := map r | r in ADMIN_ROLES :: c.secrets[RoleSecret(r)];
    var ok := Apply(c, replacements, values, freshInstance, probesPass);
    ghost var mid, midSecrets := c.database, c.secrets;
    if WithPasswords(before, mid,
                     replacements) && forall r :: r in ADMIN_ROLES ==> midSecrets[RoleSecret(r)] == values[r] {
      VerifiedAfterApply(c.manager, c.ca, before, mid, existing, midSecrets, replacements, values, freshInstance,
                         probesPass);
    }
    if ok {
      VerifiedIsPaired(c.manager, c.ca, c.database, c.secrets, freshInstance, probesPass);
      ContractBefore(c.manager, c.ca, before, existing, freshInstance, probesPass);
      return Rotated;
    }
    ContractHasRoles(c.manager, c.ca, before, existing, freshInstance, probesPass);
    exit := RecoverFrom(c, passwords, former, before, existing, replacements, values);
  }

  lemma VerifiedIsPaired(m: Manager, ca: Option<string>, db: Database, secrets: Secrets, freshInstance: string,
                         probesPass: bool)
    requires Verified(m, ca, db, secrets, freshInstance, probesPass)
    ensures Paired(m, db, secrets)
  {
    hide Paired;
  }

  lemma ContractBefore(m: Manager, ca: Option<string>, db: Database, secrets: Secrets, freshInstance: string,
                       probesPass: bool)
    requires Rotatable(m, ca, db, secrets, freshInstance, probesPass)
    ensures UnderContract(db, ChosenTarget(m, secrets, freshInstance).marker)
  {
    hide PasswordIn, ReadableInputs;
  }

  lemma ContractHasRoles(m: Manager, ca: Option<string>, db: Database, secrets: Secrets, freshInstance: string,
                         probesPass: bool)
    ensures Rotatable(m, ca, db, secrets, freshInstance, probesPass) ==> ADMIN_ROLES <= db.logins.Keys
  {
    hide PasswordIn, ReadableInputs;
  }

  /** The `except` branch, from whatever the protected part reached. */
  method RecoverFrom(c: Cluster, passwords: map<Role, string>, former: map<Role, Secret>, ghost before: Database,
                     ghost existing: Secrets, ghost replacements: map<Role, string>, ghost values: map<Role, Secret>)
    returns (exit: RotateExit)
    requires passwords.Keys == former.Keys == replacements.Keys == values.Keys == ADMIN_ROLES
    requires forall r :: r in ADMIN_ROLES ==> RoleSecret(r) in existing && former[r] == existing[RoleSecret(r)]
    requires c.database == before || WithPasswords(before, c.database, replacements)
    requires SecretsBetween(existing, c.secrets, values)
    modifies c`step, c`database, c`secrets
    ensures c.step >= old(c.step) && exit in {Restored, Incomplete}
    ensures exit == Restored ==>
              c.secrets == existing && WentBack(before, c.database, passwords)
    ensures exit == Incomplete ==>
              Between(before, c.database, passwords, replacements) && SecretsBetween(existing, c.secrets, values)
    ensures ReliableFrom(c.faults, old(c.step)) && ADMIN_ROLES <= before.logins.Keys ==> exit == Restored
  {
    hide Between;
    ghost var mid, midSecrets := c.database, c.secrets;
    exit := Recover(c, passwords, former);
    RestoredDatabase(before, mid, c.database, replacements, passwords);
    RestoredSecrets(existing, midSecrets, c.secrets, values, former);
  }

  /** The elevated roles have drifted from their Secrets, and verification fails: the restored exit
      then leaves a database that is not the old one. */
  method RestoredDrift(host: string, ca: string, old_: string, drifted: string, new_: string, instance: string)
    returns (exit: RotateExit, before: Database, c: Cluster)
    requires PlainHost(host) && Credential(old_) && Credential(new_) && drifted != old_
    ensures exit == Restored && c.database != before
    ensures before.logins.Keys == c.database.logins.Keys == ALL_ROLES
    ensures forall r :: r in ADMIN_ROLES ==>
              before.logins[r].password == drifted && c.database.logins[r].password == old_
  {
    hide PasswordIn, Credential, PlainHost;
    var manager := Manager("qa", "uid", host, false, "");
    var target := TargetDocument(manager, instance);
    var secrets := WantedSecrets(Inputs(map[Reader := old_, Migrator := old_, Seeder := old_], target), host, ca);
    var login := Login(drifted, true);
    before := Database(map[Reader := login, Migrator := login, Seeder := login], {EXPECTED_MEMBERSHIP},
                       Some(target.marker));
    c := new Cluster(manager, Some(ca), n => Fine, before, secrets);
    var file := new RecoveryFile(true, false);
    assert Complete(manager, secrets);
    ghost var changed;
    exit, changed := Rotate(c, file, Fine, map[Migrator := new_, Seeder := new_], instance, false);
  }
}
