/** Comparing the sizes of finite sets. */
module Counting {
  /** An injection from A into B bounds |A| by |B|. */
  lemma {:induction false} InjectionBound(A: set<nat>, B: set<nat>, f: map<nat, nat>)
    requires forall a :: a in A ==> a in f && f[a] in B
    requires forall a, a' :: a in A && a' in A && a != a' ==> f[a] != f[a']
    ensures |A| <= |B|
    decreases A
  {
    if A != {} {
      var a :| a in A;
      InjectionBound(A - {a}, B - {f[a]}, f);
    }
  }

  lemma SubsetBound(A: set<nat>, B: set<nat>)
    requires A <= B
    ensures |A| <= |B|
  {
    InjectionBound(A, B, map a | a in A :: a);
  }

  /** Some served index has this key. */
  ghost predicate Charged(key: nat, served: set<nat>, servedKey: map<nat, nat>)
    requires served <= servedKey.Keys
  {
    exists g :: g in served && servedKey[g] == key
  }

  ghost predicate Distinct(part: set<nat>, partKey: map<nat, nat>)
    requires part <= partKey.Keys
  {
    forall j, k :: j in part && k in part && j != k ==> partKey[j] != partKey[k]
  }

  /** If every index of a part, with distinct keys, shares its key with a served one, the part is no larger. */
  lemma Charge(part: set<nat>, served: set<nat>, partKey: map<nat, nat>, servedKey: map<nat, nat>)
    requires part <= partKey.Keys && served <= servedKey.Keys && Distinct(part, partKey)
    requires forall k :: k in part ==> Charged(partKey[k], served, servedKey)
    ensures |part| <= |served|
  {
    InjectionBound(part, served, map k | k in part :: (var g :| g in served && servedKey[g] == partKey[k]; g));
  }

  /**
    If every planned index shares its a-key or its b-key with a served one, and keys are distinct in the plan, the plan
    is at most twice as large.
  */
  lemma DoubleCharge(plan: set<nat>, served: set<nat>, planA: map<nat, nat>, planB: map<nat, nat>,
                     servedA: map<nat, nat>, servedB: map<nat, nat>)
    requires plan <= planA.Keys && plan <= planB.Keys && served <= servedA.Keys && served <= servedB.Keys
    requires Distinct(plan, planA) && Distinct(plan, planB)
    requires forall k :: k in plan ==> Charged(planA[k], served, servedA) || Charged(planB[k], served, servedB)
    ensures |plan| <= 2 * |served|
  {
    var byA := set k | k in plan && Charged(planA[k], served, servedA);
    var byB := plan - byA;
    Charge(byA, served, planA, servedA);
    Charge(byB, served, planB, servedB);
    assert plan == byA + byB;
  }
}
