/** persist_policy.c: when the total is worth a flash write. */
module PersistPolicy {
  datatype Policy = Policy(intervalMs: nat, maxPulseDelta: nat)

  predicate ShouldWrite(p: Policy, current: nat, lastSaved: nat, msSinceLastWrite: nat) {
    if current == lastSaved then false
    else if current > lastSaved && current - lastSaved >= p.maxPulseDelta then true
    else msSinceLastWrite >= p.intervalMs
  }
}
