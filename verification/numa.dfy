/** `Numactl.NumaConfig`: the node-placement settings of the numactl
    example. At most one of interleave, preferred and membind may be given;
    the CPU binding is independent of them. */
module Numa {
  import opened Wrappers
  import opened IdLists

  /** Each field is `null` (`None`) when its option was not given. */
  datatype NumaConfig = NumaConfig(
    interleave: Option<IdList>,
    preferred: Option<int>,
    membind: Option<IdList>,
    physcpubind: Option<IdList>)

  /** How many node-placement options are set, counted one field at a time. */
  function NodeOptionCount(c: NumaConfig): (n: nat)
    ensures n <= 3
    ensures n == 0 <==> c.interleave.None? && c.preferred.None? && c.membind.None?
  {
    (if c.interleave.Some? then 1 else 0)
    + (if c.preferred.Some? then 1 else 0)
    + (if c.membind.Some? then 1 else 0)
  }

  /** `HasConflict`: more than one node-placement option is set, that is,
      some two of them are set together. */
  function HasConflict(c: NumaConfig): (r: bool)
    ensures r <==>
      || (c.interleave.Some? && c.preferred.Some?)
      || (c.interleave.Some? && c.membind.Some?)
      || (c.preferred.Some? && c.membind.Some?)
  {
    NodeOptionCount(c) > 1
  }

  /** The CPU binding never takes part in a conflict. */
  lemma PhyscpubindIrrelevant(c: NumaConfig, binding: Option<IdList>)
    ensures HasConflict(c.(physcpubind := binding)) == HasConflict(c)
  {
  }

  /** Any one node-placement option, alone, is accepted. */
  lemma SingleNodeOptionAccepted(c: NumaConfig)
    requires NodeOptionCount(c) <= 1
    ensures !HasConflict(c)
    ensures c.interleave.Some? ==> c.preferred.None? && c.membind.None?
  {
  }

  /** Setting one more node-placement option on top of one already set is a conflict. */
  lemma SecondNodeOptionConflicts(c: NumaConfig, ids: IdList)
    requires NodeOptionCount(c) == 1 && c.membind.None?
    ensures HasConflict(c.(membind := Some(ids)))
  {
  }
}
