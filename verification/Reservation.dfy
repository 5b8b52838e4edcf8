/**
 Reserving and releasing memory for an image: LoadLibrary, check4GBBoundaries and Free of
 node/tun/wintun/memmod. What VirtualAlloc answers is an arbitrary script.
 */
module Reservation {
  import opened Bits
  import opened Image

  /** Blocks that straddled a 4 GB boundary, newest first. */
  datatype AddressList = Nil | Node(address: nat, next: AddressList)

  function Elements(list: AddressList): seq<nat> {
    match list
    case Nil => []
    case Node(a, next) => [a] + Elements(next)
  }

  predicate Member(a: nat, list: AddressList) {
    list.Node? && (a == list.address || Member(a, list.next))
  }

  predicate Distinct(list: AddressList) {
    list.Node? ==> !Member(list.address, list.next) && Distinct(list.next)
  }

  datatype Outcome = Reserved(address: nat) | Refused

  /** A block of `size` bytes, which must not be none, can be at `address`: on a page, and within the
      address space. */
  predicate Usable(address: nat, size: nat) {
    size > 0 && address != 0 && address % PAGE == 0 && address + size < WORD
  }

  /** The operating system. It reserves a usable block where none is reserved, or refuses. */
  class System {
    var script: seq<Outcome>
    var reserved: set<nat>
    ghost var released: seq<nat>
    ghost var refusals: nat

    method VirtualAlloc(size: nat) returns (address: nat, ok: bool)
      modifies this
      ensures ok ==> Usable(address, size) && address !in old(reserved) && reserved == old(reserved) + {address}
      ensures !ok ==> address == 0 && reserved == old(reserved)
      ensures old(script) == [] ==> !ok
      ensures old(script) != [] ==> |script| < |old(script)|
      ensures released == old(released) && refusals == old(refusals) + if ok then 0 else 1
    {
      address, ok := 0, false;
      refusals := refusals + 1;
      if script == [] { return; }
      var outcome := script[0];
      script := script[1..];
      if outcome.Reserved? && Usable(outcome.address, size) && outcome.address !in reserved {
        address, ok := outcome.address, true;
        reserved := reserved + {address};
        refusals := refusals - 1;
      }
    }

    /** Only a reserved block may be released. */
    method VirtualFree(address: nat)
      requires address in reserved
      modifies this
      ensures reserved == old(reserved) - {address} && released == old(released) + [address]
      ensures script == old(script) && refusals == old(refusals)
    {
      reserved := reserved - {address};
      released := released + [address];
    }
  }

  class Module {
    var codeBase: nat
    var blockedMemory: AddressList

    constructor ()
      ensures codeBase == 0 && blockedMemory == Nil
    {
      codeBase, blockedMemory := 0, Nil;
    }

    /** The blocks that Free will release, in that order. */
    function Blocks(): seq<nat>
      reads this
    {
      (if codeBase != 0 then [codeBase] else []) + Elements(blockedMemory)
    }

    /** No block is held twice. */
    ghost predicate Valid()
      reads this
    {
      Distinct(blockedMemory) && !Member(0, blockedMemory) && !Member(codeBase, blockedMemory)
    }

    /** Address `a` is held by the module. */
    ghost predicate Holds(a: nat)
      reads this
    {
      (codeBase != 0 && a == codeBase) || Member(a, blockedMemory)
    }

    /** The reserved blocks are those of others and, apart from these, those that the module holds. */
    ghost predicate Accounts(system: System, others: set<nat>)
      reads this, system
    {
      && Valid()
      && (forall a :: Holds(a) ==> a !in others)
      && forall a :: a in system.reserved <==> a in others || Holds(a)
    }

    /** Every block on the list was rejected for crossing a 4 GB boundary. */
    ghost predicate AllCross(size: nat)
      reads this
    {
      forall a | Member(a, blockedMemory) :: CrossesBoundary(a, size)
    }

    /** Blocks that cross a 4 GB boundary go on the list until one does not or the system refuses. */
    method Check4GBBoundaries(system: System, size: nat, ghost others: set<nat>) returns (ok: bool)
      requires Usable(codeBase, size) && Accounts(system, others) && AllCross(size)
      modifies this, system
      ensures Accounts(system, others) && AllCross(size) && system.released == old(system.released)
      ensures ok <==> codeBase != 0
      ensures ok ==> Usable(codeBase, size) && !CrossesBoundary(codeBase, size)
      ensures system.refusals == old(system.refusals) + if ok then 0 else 1
    {
      ok := true;
      while CrossesBoundary(codeBase, size)
        invariant Usable(codeBase, size) && Accounts(system, others) && AllCross(size)
        invariant system.released == old(system.released) && system.refusals == old(system.refusals)
        decreases |system.script|
      {
        ghost var empty := system.script == [];
        blockedMemory := Node(codeBase, blockedMemory);
        codeBase, ok := system.VirtualAlloc(size);
        if !ok { return; }
        assert !empty;
      }
    }

    /** Reserves a block for the image, at the preferred address or anywhere, that does not cross a 4 GB
        boundary. */
    method Reserve(system: System, size: nat) returns (ok: bool)
      requires codeBase == 0 && blockedMemory == Nil
      modifies this, system
      ensures Accounts(system, old(system.reserved)) && AllCross(size) && system.released == old(system.released)
      ensures ok <==> codeBase != 0
      ensures ok ==> Usable(codeBase, size) && !CrossesBoundary(codeBase, size)
      ensures !ok ==> system.refusals > old(system.refusals)
    {
      ghost var others := system.reserved;
      codeBase, ok := system.VirtualAlloc(size);
      if !ok {
        codeBase, ok := system.VirtualAlloc(size);
      }
      if ok {
        ok := Check4GBBoundaries(system, size, others);
      }
    }

    /** Reserves memory for an image. `rest` tells whether what LoadLibrary does afterwards succeeds. A
        load fails only if that does or the system refuses, and then leaves nothing reserved; `taken` is
        what it had reserved. */
    method LoadLibrary(system: System, size: nat, rest: bool) returns (ok: bool, ghost taken: seq<nat>)
      requires codeBase == 0 && blockedMemory == Nil
      modifies this, system
      ensures ok ==> Usable(codeBase, size) && !CrossesBoundary(codeBase, size) && AllCross(size)
      ensures ok ==> taken == Blocks() && Accounts(system, old(system.reserved))
      ensures ok ==> system.released == old(system.released)
      ensures !ok ==> Blocks() == [] && system.reserved == old(system.reserved)
      ensures !ok ==> system.released == old(system.released) + taken && forall a :: multiset(taken)[a] <= 1
      ensures !ok ==> !rest || system.refusals > old(system.refusals)
    {
      ghost var others := system.reserved;
      ok := Reserve(system, size);
      ok := ok && rest;
      taken := Blocks();
      forall a ensures multiset(taken)[a] <= 1 {
        EachBlockOnce(this, a);
      }
      if !ok {
        Free(system, others);
      }
    }

    /** Releases every block that the module holds, once, and forgets it. */
    method Free(system: System, ghost others: set<nat>)
      requires Accounts(system, others)
      modifies this, system
      ensures Blocks() == [] && Valid() && system.reserved == others
      ensures system.released == old(system.released) + old(Blocks()) && system.refusals == old(system.refusals)
    {
      if codeBase != 0 {
        system.VirtualFree(codeBase);
        codeBase := 0;
      }
      FreeList(system, blockedMemory, others);
      blockedMemory := Nil;
    }

    /** The loop of addressList.free. */
    static method FreeList(system: System, head: AddressList, ghost others: set<nat>)
      requires Distinct(head) && forall a :: Member(a, head) ==> a !in others
      requires forall a :: a in system.reserved <==> a in others || Member(a, head)
      modifies system
      ensures system.reserved == others && system.refusals == old(system.refusals)
      ensures system.released == old(system.released) + Elements(head)
    {
      var node := head;
      while node.Node?
        invariant Distinct(node) && forall a :: Member(a, node) ==> a !in others
        invariant forall a :: a in system.reserved <==> a in others || Member(a, node)
        invariant system.refusals == old(system.refusals)
        invariant system.released + Elements(node) == old(system.released) + Elements(head)
        decreases node
      {
        system.VirtualFree(node.address);
        node := node.next;
      }
    }
  }

  /** The elements of a list without duplicates occur once each. */
  lemma {:induction false} ListedOnce(list: AddressList, a: nat)
    requires Distinct(list)
    ensures multiset(Elements(list))[a] == if Member(a, list) then 1 else 0
  {
    if list.Node? { ListedOnce(list.next, a); }
  }

  /** What Free releases it releases exactly once: every block held, and no other. */
  lemma EachBlockOnce(m: Module, a: nat)
    requires m.Valid()
    ensures multiset(m.Blocks())[a] == if m.Holds(a) then 1 else 0
  {
    ListedOnce(m.blockedMemory, a);
  }

  /** A whole life: after a load, successful or not, and any positive number of calls of Free, all that
      the load reserved has been released exactly once and nothing else has. */
  method LoadAndFree(system: System, size: nat, rest: bool, times: nat) returns (ok: bool, ghost taken: seq<nat>)
    requires times > 0
    modifies system
    ensures system.reserved == old(system.reserved)
    ensures system.released == old(system.released) + taken && forall a :: multiset(taken)[a] <= 1
  {
    ghost var others := system.reserved;
    var m := new Module();
    ok, taken := m.LoadLibrary(system, size, rest);
    if !ok { return; }
    forall a ensures multiset(taken)[a] <= 1 {
      EachBlockOnce(m, a);
    }
    m.Free(system, others);
    for i := 1 to times
      invariant m.Blocks() == [] && m.Valid() && system.reserved == others
      invariant system.released == old(system.released) + taken
    {
      NothingHeld(m);
      m.Free(system, others);
    }
  }

  /** A module with nothing to release holds nothing. */
  lemma NothingHeld(m: Module)
    requires m.Valid() && m.Blocks() == []
    ensures forall a :: !m.Holds(a)
  {
    forall a ensures !m.Holds(a) {
      EachBlockOnce(m, a);
    }
  }
}
