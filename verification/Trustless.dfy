/** trustless.go: the queue of proofs to check, the results that came back, and the votes built from them. */
module Trustless {
  import opened Encoding
  import opened Actions

  class Trustless {
    var queuedActions: map<ID, U64>
    var verifiedActions: map<ID, bool>

    constructor ()
      ensures queuedActions == map[] && verifiedActions == map[]
    {
      queuedActions := map[];
      verifiedActions := map[];
    }

    method ListenActions(txID: ID, timeOut: U64)
      modifies this
      ensures queuedActions == old(queuedActions)[txID := timeOut]
      ensures verifiedActions == old(verifiedActions)
    {
      queuedActions := queuedActions[txID := timeOut];
    }

    /**
     * Builds the vote on a result. An ID that does not parse is reported to the client, but the empty ID
     * is voted on all the same. `sign` wraps and signs a message.
     */
    method SubmitResult(parsed: Option<ID>, isValid: bool, sign: Bytes -> Option<Bytes>, publicKey: Bytes)
      returns (action: Action)
      modifies this
      ensures action.ValidatorVote? && action.publicKey == publicKey && action.vote == isValid
      ensures action.tx == if parsed.Some? then parsed.value else EmptyID()
      ensures sign(Message(action.tx, action.vote)) == Some(action.signature)
           || (sign(Message(action.tx, action.vote)) == None && action.signature == [])
      ensures verifiedActions == old(verifiedActions)[action.tx := isValid]
      ensures queuedActions == old(queuedActions)
    {
      var id := if parsed.Some? then parsed.value else EmptyID();
      verifiedActions := verifiedActions[id := isValid];
      var msg := GetMessage(id, isValid);
      var signed := sign(msg[..]);
      var sig := if signed.Some? then signed.value else [];
      action := ValidatorVote(id, isValid, sig, publicKey);
    }
  }
}
