/** Provisioning of the read-only Product role (`reader.py`): which runs can be repaired by simply
    running the command again. */
module ReaderRole {
  import opened Common
  import opened CredentialUrl

  datatype Secret = Workload(url: string, ca: string) | UnexpectedKeys

  datatype ProvisionExit =
    | Refused          // raised before anything was changed
    | GrantFailed      // the grant transaction raised
    | Provisioned      // normal return
    | Failed           // raised after the grants; a role created by this run was dropped again
    | DoubleFailure    // "provision failed and role compensation failed"
    | Unconfirmed      // everything succeeded, the closing catalogue snapshot could not be read

  function PasswordIn(secret: Secret, host: string): (password: Option<string>)
    ensures password.Some? ==> Credential(password.value)
  {
    if secret.Workload? then PasswordFromUrl(Reader, secret.url, host) else None
  }

  method SecretFor(password: string, host: string, ca: string) returns (secret: Secret)
    requires Credential(password) && PlainHost(host)
    ensures secret.Workload? && secret.ca == ca && PasswordIn(secret, host) == Some(password)
  {
    EncodedDecodes(Reader, password, host);
    secret := Workload(DatabaseUrl(Reader, password, host), ca);
  }

  class Target {
    const host: string
    const ca: Option<string>
    /** The inventory: database and owner identities, no unknown consumer, nothing owned by or
        granted to the reader elsewhere, and a catalogue that the probes can read. */
    const sound: bool
    const faults: nat -> Fault
    var step: nat
    var login: Option<string>     // the role's password, when the role exists
    var granted: bool             // attributes and privileges as `check_boundary` wants them
    var secret: Option<Secret>

    constructor (host: string, ca: Option<string>, sound: bool, faults: nat -> Fault,
                 login: Option<string>, granted: bool, secret: Option<Secret>)
      ensures this.host == host && this.ca == ca && this.sound == sound && this.faults == faults && step == 0
      ensures this.login == login && this.granted == granted && this.secret == secret
    {
      this.host, this.ca, this.sound, this.faults, step := host, ca, sound, faults, 0;
      this.login, this.granted, this.secret := login, granted, secret;
    }

    /** A Secret is usable when it carries the cluster's CA and a canonical URL. */
    predicate Usable(s: Secret) {
      s.Workload? && ca == Some(s.ca) && PasswordIn(s, host).Some?
    }

    /** Neither role nor Secret, a matching pair, or the Secret alone, on a sound target. */
    ghost predicate Healable()
      reads this
    {
      && sound && ca.Some?
      && (secret.None? ==> login.None?)
      && (secret.Some? ==> Usable(secret.value) && login in {None, PasswordIn(secret.value, host)})
    }

    /** The role logs in with the password its Secret carries, within the declared boundary. */
    ghost predicate Working()
      reads this
    {
      sound && granted && login.Some? && secret.Some? && Usable(secret.value) && login == PasswordIn(secret.value, host)
    }

    method Probe() returns (ok: bool)
      modifies this`step
      ensures step == old(step) + 1
      ensures ok <==> faults(old(step)).Fine?
    {
      ok := faults(step).Fine?;
      step := step + 1;
    }

    /** The grant transaction: it creates the role with `password`, or leaves a present role's
        password alone. */
    method Grant(password: string, exists_: bool) returns (ok: bool)
      modifies this`step, this`login, this`granted
      ensures step == old(step) + 1
      ensures ok <==> faults(old(step)).Fine? && exists_ == old(login).Some?
      ensures if faults(old(step)).LostBefore? || exists_ != old(login).Some?
              then login == old(login) && granted == old(granted)
              else granted && login == if exists_ then old(login) else Some(password)
    {
      ok := faults(step).Fine? && exists_ == login.Some?;
      if !faults(step).LostBefore? && exists_ == login.Some? {
        granted := true;
        if !exists_ { login := Some(password); }
      }
      step := step + 1;
    }

    method DropRole() returns (ok: bool)
      modifies this`step, this`login, this`granted
      ensures step == old(step) + 1
      ensures ok <==> faults(old(step)).Fine? && old(login).Some?
      ensures if faults(old(step)).LostBefore? || old(login).None?
              then login == old(login) && granted == old(granted)
              else login == None && !granted
    {
      ok := faults(step).Fine? && login.Some?;
      if !faults(step).LostBefore? && login.Some? {
        login, granted := None, false;
      }
      step := step + 1;
    }

    method PutSecret(value: Secret) returns (ok: bool)
      modifies this`step, this`secret
      ensures step == old(step) + 1
      ensures ok <==> faults(old(step)).Fine?
      ensures secret == if faults(old(step)).LostBefore? then old(secret) else Some(value)
    {
      ok := faults(step).Fine?;
      if !faults(step).LostBefore? { secret := Some(value); }
      step := step + 1;
    }

    /** `verify`: boundary, Secret, login and denial probes; it changes nothing. */
    method Verify() returns (ok: bool)
      modifies this`step
      ensures step >= old(step)
      ensures ok <==> Working() && !Disturbed(faults, old(step), old(step) + 4)
      ensures ok ==> step == old(step) + 4
    {
      hide PasswordIn;
      ok := Probe();
      if !ok || !sound || !granted || login.None? { return false; }
      ok := Probe();
      if !ok || secret.None? { return false; }
      ok := Probe();
      if !ok || !Usable(secret.value) { return false; }
      ok := Probe();
      ok := ok && login == PasswordIn(secret.value, host);
    }

    /** The failures, counted from the first operation of a run, that leave a new role without its
        Secret: the grant raises after committing, or both the put and the compensation are lost. */
    ghost predicate Strands(from: nat) {
      && faults(from).Fine? && faults(from + 1).Fine?
      && (faults(from + 2).LostAfter?
          || (faults(from + 2).Fine? && faults(from + 3).LostBefore? && faults(from + 4).LostBefore?))
    }

    /** The grant is the third operation of a run, and the one that raises. */
    ghost predicate GrantRaises(from: nat) {
      faults(from).Fine? && faults(from + 1).Fine? && !faults(from + 2).Fine?
    }

    /** `provision`, for every pattern of failures. */
    method Provision(generated: string) returns (exit: ProvisionExit)
      requires Credential(generated) && PlainHost(host)
      modifies this`step, this`login, this`granted, this`secret
      ensures step >= old(step)
      ensures exit in {Provisioned, Unconfirmed} ==> Working()
      ensures exit == Refused ==> login == old(login) && granted == old(granted) && secret == old(secret)
      // a new role without a stored Secret, and a new Secret, carry the generated password; a new role
      // with a stored Secret carries the stored one
      ensures old(login).None? && old(secret).None? && login.Some? ==> login == Some(generated)
      ensures old(secret).None? && secret.Some? ==> PasswordIn(secret.value, host) == Some(generated)
      ensures old(login).None? && old(secret).Some? && login.Some? ==> login == PasswordIn(old(secret).value, host)
      // a role without its Secret is refused, whatever else holds
      ensures old(secret).None? && old(login).Some? ==> exit == Refused
      // a stored Secret and a present role's password are never changed
      ensures old(secret).Some? ==> secret == old(secret)
      ensures old(login).Some? ==> login == old(login)
      ensures exit == GrantFailed ==> secret == old(secret)
      // it succeeds on exactly the healable states, when none of its operations fails
      ensures exit == Provisioned <==>
                old(Healable()) && !Disturbed(faults, old(step), old(step) + if old(secret).None? then 9 else 8)
      // a healable target stays healable exactly unless the failures strand a role that was new
      ensures old(Healable()) ==> (Healable() <==> !(old(secret).None? && Strands(old(step))))
      ensures old(Healable()) && !Healable() ==> login.Some? && secret.None? && exit in {GrantFailed, DoubleFailure}
      // when the grant is what fails, and which of its failures strand
      ensures old(Healable()) ==> (exit == GrantFailed <==> GrantRaises(old(step)))
      ensures old(Healable()) && exit == GrantFailed ==>
                (!Healable() <==> old(login).None? && old(secret).None? && faults(old(step) + 2).LostAfter?)
      ensures exit == DoubleFailure ==> old(login).None? && old(secret).None?
    {
      hide PasswordIn, Credential;
      var ok := Probe();
      if !ok || !sound { return Refused; }
      ok := Probe();
      if !ok || ca.None? { return Refused; }
      var existing := secret;
      var created := login.None?;
      var password := generated;
      if existing.Some? {
        if !Usable(existing.value) { return Refused; }
        password := PasswordIn(existing.value, host).value;
      } else if !created {
        return Refused;
      }
      ok := Grant(password, !created);
      if !ok { return GrantFailed; }
      exit := Store(created, existing, password);
    }

    /** The protected part, once the grant has committed, with its compensation. */
    method Store(created: bool, existing: Option<Secret>, password: string) returns (exit: ProvisionExit)
      requires Credential(password) && PlainHost(host) && ca.Some? && sound && granted && login.Some?
      requires existing == secret && (existing.None? ==> created && login == Some(password))
      requires existing.Some? ==> Usable(existing.value) && PasswordIn(existing.value, host) == Some(password)
      modifies this`step, this`login, this`granted, this`secret
      ensures step >= old(step) && exit in {Provisioned, Failed, DoubleFailure, Unconfirmed}
      ensures exit in {Provisioned, Unconfirmed} ==> Working()
      ensures existing.Some? ==> secret == existing && login == old(login) && exit != DoubleFailure
      ensures login in {None, old(login)}
      ensures secret.Some? && existing.None? ==>
                Usable(secret.value) && PasswordIn(secret.value, host) == Some(password)
      ensures existing.None? ==>
                (login.Some? && secret.None? <==> faults(old(step)).LostBefore? && faults(old(step) + 1).LostBefore?)
      ensures login.Some? && secret.None? ==> exit == DoubleFailure
      ensures exit == Provisioned <==>
                (old(login) == Some(password)
                 && !Disturbed(faults, old(step), old(step) + if existing.None? then 6 else 5))
      ensures ReliableFrom(faults, old(step)) && exit != Provisioned ==> exit == Failed && old(login) != Some(password)
    {
      hide PasswordIn, Credential;
      var ok := true;
      if existing.None? {
        var value := SecretFor(password, host, ca.value);
        ok := PutSecret(value);
      }
      if ok { ok := Verify(); }
      if !ok {
        if created && existing.None? {
          ok := DropRole();
          if !ok { return DoubleFailure; }
        }
        return Failed;
      }
      ok := Probe();
      return if ok then Provisioned else Unconfirmed;
    }

    /** Running the command again heals: after any first run that did not strand the role, and so
        always when there was a Secret before, an undisturbed second run succeeds; after one that
        did, none ever does. */
    method ProvisionAgain(generated: string, generated': string)
      returns (first: ProvisionExit, second: ProvisionExit, again: Target)
      requires Credential(generated) && Credential(generated') && PlainHost(host)
      modifies this`step, this`login, this`granted, this`secret
      ensures old(Healable()) ==> (first == GrantFailed <==> GrantRaises(old(step)))
      ensures old(Healable()) ==>
                (second == Provisioned && again.Working() <==> !(old(secret).None? && Strands(old(step))))
      ensures old(Healable()) && old(secret).Some? ==> second == Provisioned && again.Working()
      ensures old(Healable()) && first !in {GrantFailed, DoubleFailure} ==> second == Provisioned && again.Working()
      ensures old(Healable()) ==> (Healable() <==> !(old(secret).None? && Strands(old(step))))
      ensures old(Healable()) && !Healable() ==>
                login.Some? && secret.None? && second != Provisioned && !again.Working()
      ensures (again.host, again.ca, again.sound) == (host, ca, sound)
      // the password that works is the stored one, or one of the two generated ones
      ensures old(secret).Some? && again.Working() ==> again.login == PasswordIn(old(secret).value, host)
      ensures old(secret).None? && old(login).None? && again.login.Some? ==>
                again.login == Some(if login.Some? || secret.Some? then generated else generated')
      ensures old(secret).Some? ==> again.secret == old(secret)
      ensures old(login).Some? ==> again.login == old(login)
    {
      hide PasswordIn, Credential, Target.Usable;
      first := Provision(generated);
      again := new Target(host, ca, sound, n => Fine, login, granted, secret);
      SameState(this, again);
      second := again.Provision(generated');
    }
  }

  /** Healability is a matter of the state, not of the failures to come. */
  lemma SameState(a: Target, b: Target)
    requires (a.host, a.ca, a.sound) == (b.host, b.ca, b.sound)
    requires (a.login, a.granted, a.secret) == (b.login, b.granted, b.secret)
    ensures a.Healable() <==> b.Healable()
    ensures ReliableFrom(n => Fine, 0)
  {
  }

  /** Every healable target without a Secret is stranded by one lost reply: the role then exists, its
      Secret does not, and no later run succeeds. */
  method LostGrantStrands(host: string, ca: string, granted: bool, generated: string, generated': string)
    returns (first: ProvisionExit, second: ProvisionExit, target: Target, again: Target)
    requires Credential(generated) && Credential(generated') && PlainHost(host)
    ensures first == GrantFailed && target.login.Some? && target.secret.None? && !target.Healable()
    ensures second != Provisioned && !again.Working()
  {
    hide PasswordIn, Credential, PlainHost;
    target := new Target(host, Some(ca), true, n => if n == 2 then LostAfter else Fine, None, granted, None);
    assert target.Healable() && target.Strands(0) && target.GrantRaises(0);
    first, second, again := target.ProvisionAgain(generated, generated');
  }
}
