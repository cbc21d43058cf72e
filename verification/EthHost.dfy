/** `EthHost` (src/core/core.cpp): the callbacks contract code makes on a working copy of the accounts. */
module EthHost {
  import opened Types
  import opened Blocks
  import opened Accounts
  import opened Execution
  import opened Supply

  /** Nothing but these accounts differs. */
  ghost predicate SameBut(before: Ledger, after: Ledger, these: set<Address>) {
    forall a | a !in these :: (a in after <==> a in before) && (a in before ==> after[a] == before[a])
  }

  /**
   A call to anybody but a contract takes the value from the sender and gives it to the destination, and changes
   nothing else; without the money it does nothing at all.
   */
  lemma {:induction false} CallPays(before: Ledger, sender: Address, destination: Address, value: Uint256,
                                    nested: seq<HostCall>, status: EvmStatus)
    requires !(destination in before && before[destination].kind == CONTRACT)
    ensures var after := RunCall(before, HostCall.Call(sender, destination, value, nested, status));
            if sender in before && value <= before[sender].balance then
              && (forall a :: Bal(after, a) == Bal(before, a) - (if a == sender then value else 0)
                                               + (if a == destination then value else 0))
              && (forall a :: a in after <==> a in before || a == destination)
              && (forall a | a in before :: after[a] == before[a].(balance := after[a].balance))
            else after == before
  {
    hide RunScript;
  }

  class EthHost {
    const stateManager: StateManager

    constructor (stateManager: StateManager)
      ensures this.stateManager == stateManager
    {
      this.stateManager := stateManager;
    }

    /** The key reads as the value from then on; the status says how that compares with what it read before. */
    method SetStorage(address: Address, key: Hash, value: seq<Byte>) returns (status: StorageStatus)
      requires stateManager.Valid()
      modifies stateManager
      ensures stateManager.Valid() && stateManager.states == Stored(old(stateManager.states), address, key, value)
      ensures Read(stateManager.states, address, key) == value
      ensures var before := old(stateManager.states);
              var known := address in before && key in before[address].storage;
              && (status == STORAGE_UNCHANGED <==> Read(before, address, key) == value)
              && (status == STORAGE_ADDED <==> !known && value != NULL_VALUE())
              && (status == STORAGE_DELETED <==> known && value == NULL_VALUE() != Read(before, address, key))
      ensures address in stateManager.states && SameBut(old(stateManager.states), stateManager.states, {address})
      ensures var was := if address in old(stateManager.states) then old(stateManager.states)[address]
                         else NewAccount(CLIENT);
              var now := stateManager.states[address];
              && now == was.(storage := now.storage)
              && forall k | k != key :: k in now.storage <==> k in was.storage
      ensures forall k | k != key :: Read(stateManager.states, address, k) == Read(old(stateManager.states), address, k)
    {
      TotalStored(stateManager.states, address, key, value);
      var account := stateManager.GetAccount(address);
      var written := account.(storage := account.storage[key := StorageData(value, true)]);
      if key !in account.storage {
        if value == NULL_VALUE() {
          return STORAGE_UNCHANGED;
        }
        stateManager.states := stateManager.states[address := written];
        return STORAGE_ADDED;
      }
      var oldValue := account.storage[key].data;
      stateManager.states := stateManager.states[address := written];
      if oldValue == value {
        return STORAGE_UNCHANGED;
      } else if value == NULL_VALUE() {
        return STORAGE_DELETED;
      }
      return STORAGE_MODIFIED;
    }

    method SelfDestruct(address: Address, beneficiary: Address)
      requires stateManager.Valid()
      modifies stateManager
      ensures stateManager.Valid() && stateManager.states == Destructed(old(stateManager.states), address, beneficiary)
      ensures address !in stateManager.states
      ensures SameBut(old(stateManager.states), stateManager.states, {address, beneficiary})
      ensures address != beneficiary ==>
                var was := if beneficiary in old(stateManager.states) then old(stateManager.states)[beneficiary]
                           else NewAccount(CLIENT);
                && beneficiary in stateManager.states
                && stateManager.states[beneficiary]
                   == was.(balance := was.balance + old(Bal(stateManager.states, address)))
    {
      hide Total;
      var account := stateManager.GetAccount(address);
      var beneficiaryAccount := stateManager.GetAccount(beneficiary);
      BalanceWithinTotal(stateManager.states, address);
      assert account.balance == Bal(stateManager.states, address);
      var ok := stateManager.TryTransferMoney(address, beneficiary, account.balance);
      var existed := stateManager.DeleteAccount(address);
    }

    /** A transfer is reported as a success whether or not the money moved. */
    method Call(sender: Address, destination: Address, value: Uint256, nested: seq<HostCall>, status: EvmStatus)
      returns (result: EvmStatus)
      requires stateManager.Valid()
      modifies stateManager
      ensures stateManager.Valid()
      ensures stateManager.states ==
                RunCall(old(stateManager.states), HostCall.Call(sender, destination, value, nested, status))
      ensures result == if IsContract(old(stateManager.states), destination) then status else EVMC_SUCCESS
      ensures !IsContract(old(stateManager.states), destination) ==>
                var before, after := old(stateManager.states), stateManager.states;
                if sender in before && value <= before[sender].balance then
                  && (forall a :: Bal(after, a) == Bal(before, a) - (if a == sender then value else 0)
                                                   + (if a == destination then value else 0))
                  && (forall a :: a in after <==> a in before || a == destination)
                  && (forall a | a in before :: after[a] == before[a].(balance := after[a].balance))
                else after == before
      decreases HostCall.Call(sender, destination, value, nested, status), 1
    {
      hide Total, Transfer;
      if stateManager.HasAccount(destination) && stateManager.states[destination].kind == CONTRACT {
        Execute(nested);
        return status;
      }
      CallPays(stateManager.states, sender, destination, value, nested, status);
      var ok := stateManager.TryTransferMoney(sender, destination, value);
      return EVMC_SUCCESS;
    }

    /** The machine makes its callbacks one after the other. */
    method Execute(script: seq<HostCall>)
      requires stateManager.Valid()
      modifies stateManager
      ensures stateManager.Valid() && stateManager.states == RunScript(old(stateManager.states), script)
      decreases script, 0
    {
      hide Total;
      if script == [] {
        return;
      }
      match script[0] {
        case Call(sender, destination, value, nested, status) =>
          var result := Call(sender, destination, value, nested, status);
        case SetStorage(address, key, value) =>
          var status := SetStorage(address, key, value);
        case SelfDestruct(address, beneficiary) =>
          SelfDestruct(address, beneficiary);
        case Inspect(address) =>
          var account := stateManager.GetAccount(address);
      }
      Execute(script[1..]);
    }
  }
}
