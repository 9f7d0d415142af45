/** An account of things that are taken one at a time: who answers for each of them. */
module Accounts {

  /** A stored record, a process, a connection, a network that was deleted, or nobody: what
      is Lost was taken by a call that did not finish its work. */
  datatype Owner = Stored(name: string) | Held(p: nat) | Rented(id: nat) | Retired | Lost

  /** `taken` names the owner of everything taken; `stored` and `held` say what each stored
      record and each process owns. They agree in both directions, so nobody shares. A
      claim is what a process is about to give back: it may be its own, or no more. */
  ghost predicate Balanced<R(!new)>(
    taken: map<R, Owner>, stored: map<string, R>, held: map<nat, R>, claims: map<nat, R>)
  {
    && (forall n :: n in stored ==> stored[n] in taken && taken[stored[n]] == Stored(n))
    && (forall p :: p in held ==> held[p] in taken && taken[held[p]] == Held(p))
    && (forall r :: r in taken && taken[r].Stored? ==> taken[r].name in stored && stored[taken[r].name] == r)
    && (forall r :: r in taken && taken[r].Held? ==>
          || (taken[r].p in held && held[taken[r].p] == r)
          || (taken[r].p in claims && claims[taken[r].p] == r))
  }

  /** No stored record and no process owns r. */
  ghost predicate Free<R(!new)>(stored: map<string, R>, held: map<nat, R>, r: R) {
    (forall n :: n in stored ==> stored[n] != r) && (forall q :: q in held ==> held[q] != r)
  }

  /** Something taken changes hands. */
  function Passed<R>(taken: map<R, Owner>, r: R, o: Owner): map<R, Owner> {
    if r in taken then taken[r := o] else taken
  }

  lemma Acquire<R(!new)>(
    taken: map<R, Owner>, stored: map<string, R>, held: map<nat, R>, claims: map<nat, R>, p: nat, r: R)
    requires Balanced(taken, stored, held, claims) && r !in taken && p !in held
    ensures Balanced(taken[r := Held(p)], stored, held[p := r], claims)
  {
  }

  lemma Release<R(!new)>(
    taken: map<R, Owner>, stored: map<string, R>, held: map<nat, R>, claims: map<nat, R>, p: nat)
    requires Balanced(taken, stored, held, claims) && p in held
    ensures Balanced(taken - {held[p]}, stored, held - {p}, claims)
  {
  }

  /** Something new that no record and no process owns. */
  lemma Stray<R(!new)>(
    taken: map<R, Owner>, stored: map<string, R>, held: map<nat, R>, claims: map<nat, R>, r: R, o: Owner)
    requires Balanced(taken, stored, held, claims) && Free(stored, held, r) && !o.Stored? && !o.Held?
    ensures Balanced(taken[r := o], stored, held, claims)
  {
  }

  /** Anything may be given back exactly when no record and no process owns it. */
  lemma Erased<R(!new)>(
    taken: map<R, Owner>, stored: map<string, R>, held: map<nat, R>, claims: map<nat, R>, r: R)
    requires Balanced(taken, stored, held, claims)
    ensures Balanced(taken - {r}, stored, held, claims) <==> Free(stored, held, r)
  {
    if Balanced(taken - {r}, stored, held, claims) {
      assert forall n :: n in stored ==> stored[n] in taken - {r};
      assert forall q :: q in held ==> held[q] in taken - {r};
    }
  }

  lemma Lose<R(!new)>(
    taken: map<R, Owner>, stored: map<string, R>, held: map<nat, R>, claims: map<nat, R>, p: nat)
    requires Balanced(taken, stored, held, claims) && p in held
    ensures Balanced(taken[held[p] := Lost], stored, held - {p}, claims)
  {
  }

  lemma Deposit<R(!new)>(
    taken: map<R, Owner>, stored: map<string, R>, held: map<nat, R>, claims: map<nat, R>, p: nat, n: string)
    requires Balanced(taken, stored, held, claims) && p in held && n !in stored
    ensures Balanced(taken[held[p] := Stored(n)], stored[n := held[p]], held - {p}, claims)
  {
  }

  lemma Withdraw<R(!new)>(
    taken: map<R, Owner>, stored: map<string, R>, held: map<nat, R>, claims: map<nat, R>, p: nat, n: string)
    requires Balanced(taken, stored, held, claims) && n in stored && p !in claims
    ensures Balanced(taken[stored[n] := Held(p)], stored - {n}, held, claims[p := stored[n]])
  {
  }

  lemma Forfeit<R(!new)>(
    taken: map<R, Owner>, stored: map<string, R>, held: map<nat, R>, claims: map<nat, R>, n: string, o: Owner)
    requires Balanced(taken, stored, held, claims) && n in stored && !o.Stored? && !o.Held?
    ensures Balanced(taken[stored[n] := o], stored - {n}, held, claims)
  {
  }

  /** A claim alone takes nothing from anybody. */
  lemma Claim<R(!new)>(
    taken: map<R, Owner>, stored: map<string, R>, held: map<nat, R>, claims: map<nat, R>, p: nat, r: R)
    requires Balanced(taken, stored, held, claims) && p !in claims
    ensures Balanced(taken, stored, held, claims[p := r])
  {
  }

  /** What a process that owns nothing answers for is nobody else's. */
  lemma ClaimedIsFree<R(!new)>(
    taken: map<R, Owner>, stored: map<string, R>, held: map<nat, R>, claims: map<nat, R>, p: nat, r: R)
    requires Balanced(taken, stored, held, claims) && r in taken && taken[r] == Held(p) && p !in held
    ensures Free(stored, held, r)
  {
  }

  /** A claim may be given back exactly when nobody owns the thing claimed. */
  lemma Settle<R(!new)>(
    taken: map<R, Owner>, stored: map<string, R>, held: map<nat, R>, claims: map<nat, R>, p: nat)
    requires Balanced(taken, stored, held, claims) && p in claims && p !in held
    ensures Balanced(taken - {claims[p]}, stored, held, claims - {p}) <==> Free(stored, held, claims[p])
  {
    var after := taken - {claims[p]};
    if Balanced(after, stored, held, claims - {p}) {
      assert forall n :: n in stored ==> stored[n] in after;
      assert forall q :: q in held ==> held[q] in after;
    }
  }
}
