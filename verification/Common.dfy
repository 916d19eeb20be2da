/** Small vocabulary shared by the component models. */
module Common {

  datatype Option<+T> = None | Some(value: T)

  /** What the environment does to one remote operation: it completes, it raises without having
      had any effect, or it raises although its effect was applied (a lost reply). */
  datatype Fault = Fine | LostBefore | LostAfter

  /** No operation numbered `from` or later fails. */
  ghost predicate ReliableFrom(faults: nat -> Fault, from: nat) {
    forall n: nat :: n >= from ==> faults(n) == Fine
  }

  /** An operation numbered from `from` up to `to` fails. */
  ghost predicate Disturbed(faults: nat -> Fault, from: nat, to: nat) {
    exists k :: from <= k < to && faults(k) != Fine
  }

  /** Two or more operations numbered `from` or later fail. */
  ghost predicate TwoFaults(faults: nat -> Fault, from: nat) {
    exists k: nat :: k >= from && faults(k) != Fine && !ReliableFrom(faults, k + 1)
  }

  /** No reply is lost after its operation took effect. */
  ghost predicate FailStop(faults: nat -> Fault, from: nat) {
    forall n: nat :: n >= from ==> faults(n) != LostAfter
  }

  ghost predicate Distinct<T>(s: seq<T>) {
    forall i, j :: 0 <= i < j < |s| ==> s[i] != s[j]
  }
}
