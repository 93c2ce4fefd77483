/** Registered image hashes over whole runs. */
module Images {
  import opened Encoding
  import opened Records
  import opened Actions
  import opened Runs
  import Execution

  /** Registering an image always succeeds, and stores the root hash under the image and the low 16 bits of the type. */
  lemma RegistersHash(s: State, image: ID, n: U64, hash: Bytes, actor: Address, txID: ID, ts: I64, rules: Rules)
    ensures var t: U16 := n % 0x1_0000;
      Execution.Effect(s, RegisterImage(image, n, hash), actor, txID, ts, rules)
      == Some(s.(hashes := s.hashes[(image, t) := hash]))
  {
  }

  /** Nothing else touches a hash. */
  lemma OtherHashes(s: State, a: Action, actor: Address, txID: ID, ts: I64, rules: Rules)
    requires !a.RegisterImage? && Execution.Effect(s, a, actor, txID, ts, rules).Some?
    ensures Execution.Effect(s, a, actor, txID, ts, rules).value.hashes == s.hashes
  {
  }

  predicate Registers(step: Step, image: ID, t: U16) {
    step.Act? && step.action.RegisterImage? && step.action.image == image && step.action.valType % 0x1_0000 == t
  }

  lemma HashStep(s: State, step: Step, image: ID, t: U16)
    ensures Registers(step, image, t) ==>
              (image, t) in Next(s, step).hashes && Next(s, step).hashes[(image, t)] == step.action.rootHash
    ensures !Registers(step, image, t) ==> ((image, t) in Next(s, step).hashes <==> (image, t) in s.hashes)
    ensures !Registers(step, image, t) && (image, t) in s.hashes ==>
              Next(s, step).hashes[(image, t)] == s.hashes[(image, t)]
  {
    if step.Act? {
      if step.action.RegisterImage? {
        var a := step.action;
        RegistersHash(s, a.image, a.valType, a.rootHash, step.actor, step.txID, step.ts, step.rules);
      } else if Outcome(s, step).Some? {
        OtherHashes(s, step.action, step.actor, step.txID, step.ts, step.rules);
      }
    } else {
      assert Next(s, step).hashes == s.hashes;
    }
  }

  /** The hash of an image and a type is the one registered last, under any type equal to it modulo 2^16. */
  lemma {:induction false} HashOrigin(s: State, steps: seq<Step>, image: ID, t: U16) returns (p: int)
    ensures -1 <= p < |steps| && forall q | p < q < |steps| :: !Registers(steps[q], image, t)
    ensures p >= 0 ==>
              && Registers(steps[p], image, t) && (image, t) in Run(s, steps).hashes
              && Run(s, steps).hashes[(image, t)] == steps[p].action.rootHash
    ensures p < 0 ==>
              && ((image, t) in Run(s, steps).hashes <==> (image, t) in s.hashes)
              && ((image, t) in s.hashes ==> Run(s, steps).hashes[(image, t)] == s.hashes[(image, t)])
  {
    p := -1;
    if steps != [] {
      var init, last := steps[..|steps| - 1], steps[|steps| - 1];
      HashStep(Run(s, init), last, image, t);
      p := HashOrigin(s, init, image, t);
      if Registers(last, image, t) {
        p := |steps| - 1;
      } else {
        assert forall q | 0 <= q < |init| :: init[q] == steps[q];
      }
    }
  }
}
