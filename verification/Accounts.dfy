/**
 Account states and their maps (src/core/managers.cpp), as values: the operations of `AccountState`
 and `StateManager` on a ledger, and the sum of all balances they are measured by.
 */
module Accounts {
  import opened Types
  import opened Blocks

  datatype AccountType = CLIENT | CONTRACT

  datatype StorageData = StorageData(data: seq<Byte>, wasModified: bool)

  datatype Account = Account(kind: AccountType, nonce: Uint64, balance: nat, codeHash: Hash,
                             transactions: seq<Hash>, storage: map<Hash, StorageData>, runtimeCode: seq<Byte>)

  type Ledger = map<Address, Account>

  function NewAccount(kind: AccountType): Account {
    Account(kind, 0, 0, NULL_HASH, [], map[], [])
  }

  function Bal(l: Ledger, a: Address): nat {
    if a in l then l[a].balance else 0
  }

  /** `StateManager::getAccount`: a missing account is created on first sight. */
  function Touch(l: Ledger, a: Address): Ledger {
    if a in l then l else l[a := NewAccount(CLIENT)]
  }

  function SetBalance(l: Ledger, a: Address, balance: nat): Ledger
    requires a in l
  {
    l[a := l[a].(balance := balance)]
  }

  /** `getAccount(a).addBalance(delta)` */
  function Add(l: Ledger, a: Address, delta: nat): Ledger {
    var t := Touch(l, a);
    SetBalance(t, a, t[a].balance + delta)
  }

  /** `getAccount(a).subBalance(delta)` where it does not raise */
  function Sub(l: Ledger, a: Address, delta: nat): Ledger
    requires delta <= Bal(l, a)
  {
    var t := Touch(l, a);
    SetBalance(t, a, t[a].balance - delta)
  }

  /** `tryTransferMoney`: nothing at all happens unless the sender exists and can pay. */
  predicate CanTransfer(l: Ledger, from: Address, amount: nat) {
    from in l && amount <= l[from].balance
  }

  function Transfer(l: Ledger, from: Address, to: Address, amount: nat): Ledger {
    if CanTransfer(l, from, amount) then Add(Sub(Touch(l, to), from, amount), to, amount) else l
  }

  /** `getAccount(a).addTransactionHash(hash)`; the nonce is 64-bit. */
  function Recorded(l: Ledger, a: Address, hash: Hash): Ledger {
    var t := Touch(l, a);
    t[a := t[a].(transactions := t[a].transactions + [hash], nonce := (t[a].nonce + 1) % 0x1_00000000_00000000)]
  }

  /** `createContractAccount`: whatever account had the address before is replaced. */
  function CreateContract(l: Ledger, a: Address, codeHash: Hash): Ledger {
    l[a := NewAccount(CONTRACT).(codeHash := codeHash)]
  }

  // ---------- the sum of all balances ----------

  ghost function Total(l: Ledger): nat {
    if l == map[] then 0 else
      var a :| a in l;
      l[a].balance + Total(l - {a})
  }

  lemma {:induction false} TotalPick(l: Ledger, a: Address)
    requires a in l
    ensures Total(l) == l[a].balance + Total(l - {a})
    decreases |l|
  {
    var b :| b in l && Total(l) == l[b].balance + Total(l - {b});
    if a != b {
      var la, lb := l - {a}, l - {b};
      assert lb.Keys == l.Keys - {b} && la.Keys == l.Keys - {a};
      TotalPick(lb, a);
      TotalPick(la, b);
      assert la - {b} == lb - {a};
    }
  }

  /** Replacing or creating one account changes the sum by the change of its balance. */
  lemma {:induction false} TotalUpdate(l: Ledger, a: Address, x: Account)
    ensures Total(l[a := x]) == Total(l) - Bal(l, a) + x.balance
    ensures Bal(l, a) <= Total(l)
  {
    var l' := l[a := x];
    TotalPick(l', a);
    if a in l {
      TotalPick(l, a);
      assert l' - {a} == l - {a};
    } else {
      assert l' - {a} == l;
    }
  }

  lemma {:induction false} TotalRemove(l: Ledger, a: Address)
    ensures Total(l - {a}) == Total(l) - Bal(l, a) && Bal(l, a) <= Total(l)
  {
    if a in l { TotalPick(l, a); } else { assert l - {a} == l; }
  }

  lemma {:induction false} TotalTouch(l: Ledger, a: Address)
    ensures Total(Touch(l, a)) == Total(l) && forall x :: Bal(Touch(l, a), x) == Bal(l, x)
  {
    if a !in l { TotalUpdate(l, a, NewAccount(CLIENT)); }
  }

  lemma {:induction false} TotalAdd(l: Ledger, a: Address, delta: nat)
    ensures Total(Add(l, a, delta)) == Total(l) + delta
  {
    TotalTouch(l, a);
    var t := Touch(l, a);
    TotalUpdate(t, a, t[a].(balance := t[a].balance + delta));
  }

  lemma {:induction false} TotalSub(l: Ledger, a: Address, delta: nat)
    requires delta <= Bal(l, a)
    ensures Total(Sub(l, a, delta)) == Total(l) - delta && delta <= Total(l)
  {
    TotalTouch(l, a);
    var t := Touch(l, a);
    TotalUpdate(t, a, t[a].(balance := t[a].balance - delta));
  }

  lemma {:induction false} TotalRecorded(l: Ledger, a: Address, hash: Hash)
    ensures Total(Recorded(l, a, hash)) == Total(l) && forall x :: Bal(Recorded(l, a, hash), x) == Bal(l, x)
  {
    TotalTouch(l, a);
    var t := Touch(l, a);
    TotalUpdate(t, a, Recorded(l, a, hash)[a]);
  }

  /** A transfer moves money and makes none, also when sender and receiver are the same account. */
  lemma {:induction false} TotalTransfer(l: Ledger, from: Address, to: Address, amount: nat)
    ensures Total(Transfer(l, from, to, amount)) == Total(l)
  {
    if CanTransfer(l, from, amount) {
      var t := Touch(l, to);
      TotalTouch(l, to);
      TotalSub(t, from, amount);
      TotalAdd(Sub(t, from, amount), to, amount);
    }
  }

  /** Hence the receiver's new balance, where the program checks for overflow, is within the old sum. */
  lemma {:induction false} TransferBound(l: Ledger, from: Address, to: Address, amount: nat)
    requires CanTransfer(l, from, amount)
    ensures Bal(Sub(Touch(l, to), from, amount), to) + amount <= Total(l)
  {
    var l' := Transfer(l, from, to, amount);
    TotalTransfer(l, from, to, amount);
    TotalUpdate(l', to, l'[to]);
  }

  /** Who has what after a transfer. */
  lemma {:induction false} TransferBalances(l: Ledger, from: Address, to: Address, amount: nat, x: Address)
    requires CanTransfer(l, from, amount)
    ensures Bal(Transfer(l, from, to, amount), x) ==
            Bal(l, x) - (if x == from then amount else 0) + (if x == to then amount else 0)
  {}

  lemma {:induction false} BalanceWithinTotal(l: Ledger, a: Address)
    ensures Bal(l, a) <= Total(l)
  {
    TotalRemove(l, a);
  }

  // ---------- the class ----------

  /** `_states` is held by value: a C++ reference into the map is a lookup and an update at its address. */
  class StateManager {
    var states: Ledger

    /** No balance the checked 256-bit arithmetic can form from these accounts overflows. */
    ghost predicate Valid()
      reads this
    {
      Total(states) <= MAX_UINT256
    }

    constructor ()
      ensures Valid() && states == map[]
    {
      states := map[];
      assert Total(map[]) == 0;
    }

    function HasAccount(address: Address): bool
      reads this
    {
      address in states
    }

    method GetAccount(address: Address) returns (account: Account)
      modifies this
      ensures states == Touch(old(states), address) && account == states[address]
      ensures old(Valid()) ==> Valid()
    {
      TotalTouch(states, address);
      if address !in states {
        states := states[address := NewAccount(CLIENT)];
      }
      account := states[address];
    }

    method AddTransactionHash(address: Address, hash: Hash)
      modifies this
      ensures states == Recorded(old(states), address, hash)
      ensures var was := if address in old(states) then old(states)[address] else NewAccount(CLIENT);
              states == old(states)[address := was.(transactions := was.transactions + [hash],
                                                    nonce := if was.nonce == 0xFFFFFFFF_FFFFFFFF then 0
                                                             else was.nonce + 1)]
      ensures old(Valid()) ==> Valid()
    {
      TotalRecorded(states, address, hash);
      var account := GetAccount(address);
      states := states[address := account.(transactions := account.transactions + [hash],
                                           nonce := (account.nonce + 1) % 0x1_00000000_00000000)];
    }

    /** The checked `+=` of 256-bit numbers; it cannot raise while the sum of all balances fits. */
    method AddBalance(address: Address, delta: Uint256) returns (r: Result<()>)
      modifies this
      ensures r.Raised? <==> old(Bal(states, address)) + delta > MAX_UINT256
      ensures r.Raised? ==> r.error == OverflowError && states == Touch(old(states), address)
      ensures r.Ok? ==> states == Add(old(states), address, delta)
      ensures old(Total(states)) + delta <= MAX_UINT256 ==> r.Ok? && Valid()
    {
      TotalAdd(states, address, delta);
      BalanceWithinTotal(states, address);
      var account := GetAccount(address);
      if account.balance + delta > MAX_UINT256 {
        return Raised(OverflowError);
      }
      states := states[address := account.(balance := account.balance + delta)];
      return Ok(());
    }

    method SubBalance(address: Address, delta: Uint256) returns (r: Result<()>)
      requires Valid()
      modifies this
      ensures Valid()
      ensures r.Ok? <==> delta <= old(Bal(states, address))
      ensures r.Ok? ==> states == Sub(old(states), address, delta)
      ensures r.Raised? ==> r.error == LogicError && states == Touch(old(states), address)
    {
      var account := GetAccount(address);
      TotalTouch(old(states), address);
      if account.balance < delta {
        return Raised(LogicError);
      }
      TotalSub(old(states), address, delta);
      states := states[address := account.(balance := account.balance - delta)];
      return Ok(());
    }

    method TryTransferMoney(from: Address, to: Address, amount: Uint256) returns (ok: bool)
      requires Valid()
      modifies this
      ensures Valid()
      ensures ok <==> CanTransfer(old(states), from, amount)
      ensures states == Transfer(old(states), from, to, amount)
      ensures ok ==> Bal(states, to) <= MAX_UINT256
    {
      hide Total;
      ghost var before := states;
      if !HasAccount(from) {
        return false;
      }
      var fromAccount := GetAccount(from);
      if fromAccount.balance < amount {
        return false;
      }
      TransferBound(states, from, to, amount);
      TotalTransfer(states, from, to, amount);
      if !HasAccount(to) {
        states := states[to := NewAccount(CLIENT)];
      }
      states := states[from := states[from].(balance := states[from].balance - amount)];
      states := states[to := states[to].(balance := states[to].balance + amount)];
      assert states == Transfer(before, from, to, amount);
      hide Transfer;
      BalanceWithinTotal(states, to);
      return true;
    }

    method CreateContractAccount(address: Address, codeHash: Hash)
      requires Valid()
      modifies this
      ensures Valid() && states == CreateContract(old(states), address, codeHash)
      ensures states == old(states)[address := Account(CONTRACT, 0, 0, codeHash, [], map[], [])]
    {
      TotalUpdate(states, address, NewAccount(CONTRACT).(codeHash := codeHash));
      states := states[address := NewAccount(CONTRACT).(codeHash := codeHash)];
    }

    method DeleteAccount(address: Address) returns (existed: bool)
      requires Valid()
      modifies this
      ensures Valid() && states == old(states) - {address} && (existed <==> address in old(states))
    {
      TotalRemove(states, address);
      existed := address in states;
      states := states - {address};
    }

    method CreateCopy() returns (copy: StateManager)
      ensures fresh(copy) && copy.states == states
    {
      copy := new StateManager();
      copy.states := states;
    }

    method ApplyChanges(state: StateManager)
      modifies this
      ensures states == old(state.states)
    {
      states := state.states;
    }

    method UpdateFromGenesis(block: Block)
      modifies this
      ensures states == FromGenesis(old(states), block.txs)
    {
      ghost var before := states;
      for k := 0 to |block.txs|
        invariant states == FromGenesis(before, block.txs[..k])
      {
        assert block.txs[..k + 1][..k] == block.txs[..k];
        var tx := block.txs[k];
        if tx.to !in states {
          states := states[tx.to := NewAccount(CLIENT).(balance := tx.amount)];
        }
      }
      assert block.txs[..|block.txs|] == block.txs;
    }
  }

  /** `std::map::insert` keeps the first entry for a key. */
  function FromGenesis(l: Ledger, txs: seq<Transaction>): Ledger {
    if txs == [] then l else
      var before := FromGenesis(l, txs[..|txs| - 1]);
      var tx := txs[|txs| - 1];
      if tx.to in before then before else before[tx.to := NewAccount(CLIENT).(balance := tx.amount)]
  }

  /** The genesis accounts are the receivers' and no others. */
  lemma {:induction false} GenesisReceivers(txs: seq<Transaction>, a: Address)
    ensures a in FromGenesis(map[], txs) <==> exists i :: 0 <= i < |txs| && txs[i].to == a
  {
    if txs == [] {
    } else {
      var front, last := txs[..|txs| - 1], txs[|txs| - 1];
      GenesisReceivers(front, a);
      if i :| 0 <= i < |txs| && txs[i].to == a { assert i < |front| ==> front[i].to == a; }
      if i :| 0 <= i < |front| && front[i].to == a { assert txs[i].to == a; }
    }
  }

  /** Each is a client account with the amount of the first transfer to it. */
  lemma {:induction false} GenesisAccount(txs: seq<Transaction>, i: nat)
    requires i < |txs| && forall k :: 0 <= k < i ==> txs[k].to != txs[i].to
    ensures txs[i].to in FromGenesis(map[], txs)
    ensures FromGenesis(map[], txs)[txs[i].to] == Account(CLIENT, 0, txs[i].amount, NULL_HASH, [], map[], [])
  {
    var front := txs[..|txs| - 1];
    if i < |front| {
      GenesisAccount(front, i);
    } else {
      GenesisReceivers(front, txs[i].to);
    }
  }
}
