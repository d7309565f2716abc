/**
 * The Matrix room the background tasks post notices to. Rendering a notice
 * to text and the transport are not part of this model: a room records the
 * notices it accepted, and the outcome of each coming send is given in
 * advance, so a room may take some notices and then refuse one.
 */
module Chat {

  class Room<T> {
    var sent: seq<T>
    /** Whether each coming send succeeds, in order; once these run out, sends succeed. */
    var outcomes: seq<bool>

    constructor(outcomes: seq<bool>)
      ensures sent == [] && this.outcomes == outcomes
    {
      sent := [];
      this.outcomes := outcomes;
    }

    /** `room.send(notice(...))` */
    method Send(notice: T) returns (ok: bool)
      modifies this
      ensures ok == (old(outcomes) == [] || old(outcomes)[0])
      ensures outcomes == if old(outcomes) == [] then [] else old(outcomes)[1..]
      ensures sent == if ok then old(sent) + [notice] else old(sent)
    {
      ok := outcomes == [] || outcomes[0];
      if outcomes != [] {
        outcomes := outcomes[1..];
      }
      if ok {
        sent := sent + [notice];
      }
    }
  }

  /**
   * How many of `n` notices are delivered when the coming sends have
   * `outcomes`: the ones before the first refused send.
   */
  function Delivered(outcomes: seq<bool>, n: nat): (k: nat)
    ensures k <= n
    ensures forall i :: 0 <= i < k && i < |outcomes| ==> outcomes[i]
    ensures k < n ==> k < |outcomes| && !outcomes[k]
  {
    if n == 0 || outcomes == [] then n
    else if !outcomes[0] then 0
    else 1 + Delivered(outcomes[1..], n - 1)
  }

  /** The outcomes left once `n` notices were sent, stopping at the first refusal. */
  function Remaining(outcomes: seq<bool>, n: nat): seq<bool> {
    if n == 0 || outcomes == [] then outcomes
    else if !outcomes[0] then outcomes[1..]
    else Remaining(outcomes[1..], n - 1)
  }

  /** All `n` notices are delivered exactly when none of the first `n` sends is refused. */
  lemma {:induction false} DeliveredAll(outcomes: seq<bool>, n: nat)
    ensures Delivered(outcomes, n) == n <==> forall i :: 0 <= i < n && i < |outcomes| ==> outcomes[i]
  {
    if n > 0 && outcomes != [] && outcomes[0] {
      DeliveredAll(outcomes[1..], n - 1);
      if forall i :: 0 <= i < n - 1 && i < |outcomes| - 1 ==> outcomes[1..][i] {
        forall i | 0 <= i < n && i < |outcomes|
          ensures outcomes[i]
        {
          if i > 0 {
            assert outcomes[i] == outcomes[1..][i - 1];
          }
        }
      }
    }
  }

  /**
   * Sends the notices in order, stopping at the first failure (the `?` in
   * the send loop): the notices before it stay posted.
   */
  method SendAll<T>(room: Room<T>, notices: seq<T>) returns (ok: bool)
    modifies room
    ensures var k := Delivered(old(room.outcomes), |notices|);
      && ok == (k == |notices|)
      && room.sent == old(room.sent) + notices[..k]
      && room.outcomes == Remaining(old(room.outcomes), |notices|)
  {
    var i := 0;
    while i < |notices|
      invariant 0 <= i <= |notices|
      invariant Delivered(old(room.outcomes), |notices|) == i + Delivered(room.outcomes, |notices| - i)
      invariant Remaining(old(room.outcomes), |notices|) == Remaining(room.outcomes, |notices| - i)
      invariant room.sent == old(room.sent) + notices[..i]
    {
      var sentOne := room.Send(notices[i]);
      if !sentOne {
        return false;
      }
      assert notices[..i + 1] == notices[..i] + [notices[i]];
      i := i + 1;
    }
    assert notices[..i] == notices;
    ok := true;
  }
}
