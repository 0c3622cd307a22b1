/** EIP-7702 authorization lists: the value-level meaning of one authorization
    and of every prefix of a list, with the laws the list processing obeys. */
module Authorizations {
  import opened Common
  import opened Ledger

  const PER_EMPTY_ACCOUNT_COST: uint64 := 25000
  const PER_AUTH_BASE_COST: uint64 := 12500
  const AUTH_REFUND: uint64 := PER_EMPTY_ACCOUNT_COST - PER_AUTH_BASE_COST

  /** `signer` is what the signature recovers to, if it recovers at all. */
  datatype Authorization =
    Authorization(chainId: uint256, target: Address, nonce: uint64, signer: Option<Address>)

  /** Signer recovery refuses the largest nonce before looking at the signature. */
  function Recover(auth: Authorization): Option<Address> {
    if auth.nonce == MAX_U64 then None else auth.signer
  }

  /** The first two checks: right chain (or any chain), recoverable signer. */
  predicate Recovered(chainId: uint256, auth: Authorization) {
    (auth.chainId == 0 || auth.chainId == chainId) && Recover(auth).Some?
  }

  predicate Accepts(chainId: uint256, s: State, auth: Authorization) {
    && Recovered(chainId, auth)
    && !Get(s.accounts, Recover(auth).value).code.Contract?
    && Get(s.accounts, Recover(auth).value).nonce == auth.nonce
  }

  /** An authorization is accepted exactly if it is for this chain or for any, its nonce is
      not the largest, it was signed, and its signer has that nonce and no code of its own. */
  lemma AcceptedIff(chainId: uint256, s: State, auth: Authorization)
    ensures Accepts(chainId, s, auth) <==>
              && (auth.chainId == 0 || auth.chainId == chainId) && auth.nonce != MAX_U64 && auth.signer.Some?
              && Get(s.accounts, auth.signer.value).nonce == auth.nonce
              && (Get(s.accounts, auth.signer.value).code == NoCode || Get(s.accounts, auth.signer.value).code.Delegation?)
  {
  }

  function Designated(auth: Authorization): Code {
    if auth.target == 0 then NoCode else Delegation(auth.target)
  }

  function Step(chainId: uint256, s: State, auth: Authorization): State {
    if !Accepts(chainId, s, auth) then s else
      var a := Recover(auth).value;
      var acc := Get(s.accounts, a);
      State(s.accounts[a := acc.(nonce := auth.nonce + 1, code := Designated(auth))],
            if a in s.accounts then Add64(s.refund, AUTH_REFUND) else s.refund)
  }

  /** The refund for an account that exists; the first write of an acceptance. */
  function Refunded(s: State, a: Address): State {
    if a in s.accounts then s.(refund := Add64(s.refund, AUTH_REFUND)) else s
  }

  /** The code written, the second write; the nonce is the third. */
  function Designate(s: State, auth: Authorization, a: Address): State {
    s.(accounts := s.accounts[a := Get(s.accounts, a).(code := Designated(auth))])
  }

  /** The state after the first `k` authorizations. */
  function After(chainId: uint256, s: State, auths: seq<Authorization>, k: nat): State
    requires k <= |auths|
  {
    if k == 0 then s else Step(chainId, After(chainId, s, auths, k - 1), auths[k - 1])
  }

  /** The addresses to warm up: every recovered signer, accepted or not. */
  function Verified(chainId: uint256, auths: seq<Authorization>, k: nat): seq<Address>
    requires k <= |auths|
  {
    if k == 0 then []
    else if Recovered(chainId, auths[k - 1]) then
      Verified(chainId, auths, k - 1) + [Recover(auths[k - 1]).value]
    else Verified(chainId, auths, k - 1)
  }

  ghost predicate AcceptedAt(chainId: uint256, s: State, auths: seq<Authorization>, i: nat, a: Address)
    requires i < |auths|
  {
    Accepts(chainId, After(chainId, s, auths, i), auths[i]) && Recover(auths[i]).value == a
  }

  /** How many of the first `k` authorizations were accepted for `a`. */
  ghost function AcceptedFor(chainId: uint256, s: State, auths: seq<Authorization>, k: nat, a: Address): nat
    requires k <= |auths|
  {
    if k == 0 then 0
    else AcceptedFor(chainId, s, auths, k - 1, a) + if AcceptedAt(chainId, s, auths, k - 1, a) then 1 else 0
  }

  /** How many of the first `k` authorizations were accepted while their account existed. */
  ghost function AcceptedExisting(chainId: uint256, s: State, auths: seq<Authorization>, k: nat): nat
    requires k <= |auths|
  {
    if k == 0 then 0 else
      var before := After(chainId, s, auths, k - 1);
      AcceptedExisting(chainId, s, auths, k - 1) +
      if Accepts(chainId, before, auths[k - 1]) && Recover(auths[k - 1]).value in before.accounts then 1 else 0
  }

  /** Each nonce rises by exactly the number of authorizations accepted for the
      account, and no balance moves. */
  lemma {:induction false} NonceCountsAcceptances(
      chainId: uint256, s: State, auths: seq<Authorization>, k: nat, a: Address)
    requires k <= |auths|
    ensures Get(After(chainId, s, auths, k).accounts, a).nonce
         == Get(s.accounts, a).nonce + AcceptedFor(chainId, s, auths, k, a)
    ensures Balance(After(chainId, s, auths, k).accounts, a) == Balance(s.accounts, a)
  {
    if k != 0 { NonceCountsAcceptances(chainId, s, auths, k - 1, a); }
  }

  lemma {:induction false} AcceptancesGrow(
      chainId: uint256, s: State, auths: seq<Authorization>, i: nat, j: nat, a: Address)
    requires i <= j <= |auths|
    ensures AcceptedFor(chainId, s, auths, i, a) <= AcceptedFor(chainId, s, auths, j, a)
    decreases j
  {
    if i < j { AcceptancesGrow(chainId, s, auths, i, j - 1, a); }
  }

  /** Two acceptances for one authority carry strictly increasing nonces, so no
      (authority, nonce) pair is ever accepted twice. */
  lemma NoReplay(chainId: uint256, s: State, auths: seq<Authorization>, i: nat, j: nat, a: Address)
    requires i < j < |auths|
    requires AcceptedAt(chainId, s, auths, i, a) && AcceptedAt(chainId, s, auths, j, a)
    ensures auths[i].nonce < auths[j].nonce
  {
    NonceCountsAcceptances(chainId, s, auths, i, a);
    NonceCountsAcceptances(chainId, s, auths, j, a);
    AcceptancesGrow(chainId, s, auths, i + 1, j, a);
  }

  /** An account's code is what its last accepted authorization designates; with
      none accepted the account is untouched.  Contract code is never replaced. */
  lemma {:induction false} CodeIsLastAccepted(
      chainId: uint256, s: State, auths: seq<Authorization>, k: nat, a: Address)
    requires k <= |auths|
    ensures AcceptedFor(chainId, s, auths, k, a) == 0 ==>
              Get(After(chainId, s, auths, k).accounts, a) == Get(s.accounts, a)
    ensures AcceptedFor(chainId, s, auths, k, a) > 0 ==>
              exists i :: 0 <= i < k && AcceptedAt(chainId, s, auths, i, a)
                && AcceptedFor(chainId, s, auths, i + 1, a) == AcceptedFor(chainId, s, auths, k, a)
                && Get(After(chainId, s, auths, k).accounts, a).code == Designated(auths[i])
    ensures Get(s.accounts, a).code.Contract? ==> AcceptedFor(chainId, s, auths, k, a) == 0
  {
    if k != 0 {
      CodeIsLastAccepted(chainId, s, auths, k - 1, a);
      if AcceptedAt(chainId, s, auths, k - 1, a) {
        assert AcceptedFor(chainId, s, auths, k - 1 + 1, a) == AcceptedFor(chainId, s, auths, k, a);
      }
    }
  }

  lemma WrapsOnce(x: nat, c: uint64)
    ensures Add64(x % TWO_64, c) == (x + c) % TWO_64
  {
  }

  /** The refund counter rises by a fixed amount per acceptance whose account
      existed at that point, as a 64-bit counter does. */
  lemma {:induction false} RefundCountsExisting(chainId: uint256, s: State, auths: seq<Authorization>, k: nat)
    requires k <= |auths|
    ensures After(chainId, s, auths, k).refund
         == (s.refund + AUTH_REFUND * AcceptedExisting(chainId, s, auths, k)) % TWO_64
  {
    if k != 0 {
      RefundCountsExisting(chainId, s, auths, k - 1);
      WrapsOnce(s.refund + AUTH_REFUND * AcceptedExisting(chainId, s, auths, k - 1), AUTH_REFUND);
    }
  }

  lemma {:induction false} AuthorizationsKeepTotal(
      chainId: uint256, s: State, auths: seq<Authorization>, k: nat)
    requires k <= |auths|
    ensures Total(After(chainId, s, auths, k).accounts) == Total(s.accounts)
  {
    if k != 0 {
      AuthorizationsKeepTotal(chainId, s, auths, k - 1);
      var before := After(chainId, s, auths, k - 1);
      if Accepts(chainId, before, auths[k - 1]) {
        var a := Recover(auths[k - 1]).value;
        TotalUpdate(before.accounts, a, After(chainId, s, auths, k).accounts[a]);
      }
    }
  }
}
