/** m-of-n controller signatures, as both the epoch tracker and the class W gate count them. */
module Multisig {
  datatype Signature = Signature(keyId: int, sig: string)

  function Signers(sigs: seq<Signature>): set<int> { set s | s in sigs :: s.keyId }

  ghost predicate DistinctKeys(sigs: seq<Signature>) {
    forall i, j :: 0 <= i < j < |sigs| ==> sigs[i].keyId != sigs[j].keyId
  }

  ghost predicate AllVerify(controllers: set<int>, check: (int, string) -> bool, sigs: seq<Signature>) {
    forall i :: 0 <= i < |sigs| ==> sigs[i].keyId in controllers && check(sigs[i].keyId, sigs[i].sig)
  }

  /** Every signature belongs to a distinct known controller and verifies, and there are at least `k`. */
  ghost predicate Reached(controllers: set<int>, check: (int, string) -> bool, k: nat, sigs: seq<Signature>) {
    DistinctKeys(sigs) && AllVerify(controllers, check, sigs) && k <= |sigs|
  }

  /** A quorum is backed by at least `k` different controllers, each with a signature that verifies. */
  lemma ReachedByDistinctControllers(
      controllers: set<int>, check: (int, string) -> bool, k: nat, sigs: seq<Signature>)
    requires Reached(controllers, check, k, sigs)
    ensures k <= |Signers(sigs)| == |sigs| && Signers(sigs) <= controllers
    ensures forall id :: id in Signers(sigs) ==> exists s :: s in sigs && s.keyId == id && check(id, s.sig)
  {
    SignersAreDistinct(sigs);
    forall id | id in Signers(sigs)
      ensures id in controllers && exists s :: s in sigs && s.keyId == id && check(id, s.sig)
    {
      SignerVerifies(controllers, check, sigs, id);
    }
  }

  lemma SignerVerifies(controllers: set<int>, check: (int, string) -> bool, sigs: seq<Signature>, id: int)
    requires AllVerify(controllers, check, sigs) && id in Signers(sigs)
    ensures id in controllers && exists s :: s in sigs && s.keyId == id && check(id, s.sig)
  {
    var i :| 0 <= i < |sigs| && sigs[i].keyId == id;
    assert sigs[i] in sigs;
  }

  lemma {:induction false} SignersAreDistinct(sigs: seq<Signature>)
    requires DistinctKeys(sigs)
    ensures |Signers(sigs)| == |sigs|
  {
    if sigs != [] {
      var front, last := sigs[..|sigs| - 1], sigs[|sigs| - 1];
      SignersAreDistinct(front);
      assert sigs == front + [last];
      assert Signers(sigs) == Signers(front) + {last.keyId};
      assert last.keyId !in Signers(front);
    }
  }
}
