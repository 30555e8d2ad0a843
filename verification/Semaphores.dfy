/** The counting semaphore with a queue of waiters, a maximum that can change, and a promise for zero. */
module Semaphores {
  import opened Values

  predicate HasRoom(count: int, max: Option<int>) {
    max.None? || count < max.value
  }

  /** Those waiting are exactly the tickets that were drawn and not granted, in the order of drawing. */
  predicate QueueFits(resolvers: seq<nat>, granted: nat, issued: nat) {
    |resolvers| == issued - granted && forall i :: 0 <= i < |resolvers| ==> resolvers[i] == granted + i
  }

  /** The count is the number of holders, whose tickets have been granted. */
  predicate HoldersFit(count: int, holders: set<nat>, granted: nat) {
    count == |holders| && forall t :: t in holders ==> t < granted
  }

  /** A promise for zero is pending only while the count is not zero; all earlier ones have resolved. */
  ghost predicate ZeroFits(count: int, pending: Option<nat>, made: nat, resolved: set<nat>) {
    && (pending.Some? ==> count != 0 && made > 0 && pending.value == made - 1)
    && (forall p: nat :: p in resolved <==> p < made && pending != Some(p))
  }

  lemma Pushed(resolvers: seq<nat>, granted: nat, issued: nat)
    requires QueueFits(resolvers, granted, issued)
    ensures QueueFits(resolvers + [issued], granted, issued + 1)
    ensures resolvers == [] ==> granted == issued && QueueFits([], granted + 1, issued + 1)
  {
  }

  lemma Shifted(resolvers: seq<nat>, granted: nat, issued: nat)
    requires QueueFits(resolvers, granted, issued) && resolvers != []
    ensures resolvers[0] == granted && QueueFits(resolvers[1..], granted + 1, issued)
  {
  }

  lemma HolderIn(count: int, holders: set<nat>, granted: nat)
    requires HoldersFit(count, holders, granted)
    ensures HoldersFit(count + 1, holders + {granted}, granted + 1)
  {
    assert granted !in holders;
    assert |holders + {granted}| == |holders| + 1;
  }

  lemma HolderOut(count: int, holders: set<nat>, granted: nat, ticket: nat)
    requires HoldersFit(count, holders, granted) && ticket in holders
    ensures HoldersFit(count - 1, holders - {ticket}, granted)
  {
    assert |holders - {ticket}| == |holders| - 1;
  }

  /**
   * Every call of `increment` draws the next ticket, which stands for the promise that the call
   * returns. A ticket is granted when that promise resolves, and held until it is given back.
   */
  class Semaphore {
    var count: int
    var max: Option<int>
    var resolvers: seq<nat>
    /** The pending promise for zero, and the number of such promises made. */
    var zeroPromise: Option<nat>
    var zeroPromises: nat
    var issued: nat
    ghost var granted: nat
    ghost var holders: set<nat>
    ghost var zeroResolved: set<nat>
    /** How many tickets had been granted when the maximum was last changed. */
    ghost var grantedAtMax: nat

    /**
     * Besides the books: nobody waits while there is room, and the count is above the maximum only as
     * long as nothing has been granted since the maximum was last changed.
     */
    ghost predicate Valid()
      reads this
    {
      && HoldersFit(count, holders, granted) && QueueFits(resolvers, granted, issued)
      && ZeroFits(count, zeroPromise, zeroPromises, zeroResolved)
      && (resolvers != [] ==> max.Some? && count >= max.value)
      && grantedAtMax <= granted && (max.Some? && count > max.value ==> granted == grantedAtMax)
    }

    constructor (max: int)
      ensures Valid() && count == 0 && this.max == (if max == 0 then None else Some(max)) && resolvers == []
          && issued == 0
    {
      count, this.max, resolvers, zeroPromise, zeroPromises := 0, if max == 0 then None else Some(max), [], None, 0;
      issued, granted, holders, zeroResolved, grantedAtMax := 0, 0, {}, {}, 0;
    }

    /** Resolves at once when there is room; else the ticket waits behind all others. */
    method Increment() returns (ticket: nat, resolved: bool)
      requires Valid()
      modifies `count, `resolvers, `issued, `granted, `holders
      ensures Valid() && ticket == old(issued) && issued == old(issued) + 1
      ensures resolved <==> max.None? || old(count) < max.value
      ensures resolved ==> count == old(count) + 1 && holders == old(holders) + {ticket}
      ensures resolved ==> old(resolvers) == [] && resolvers == [] && granted == issued
      ensures !resolved ==> count == old(count) && holders == old(holders) && granted == old(granted)
      ensures !resolved ==> resolvers == old(resolvers) + [ticket]
    {
      ticket, resolved := issued, HasRoom(count, max);
      Pushed(resolvers, granted, issued);
      issued := issued + 1;
      if resolved {
        HolderIn(count, holders, granted);
        count := count + 1;
        holders := holders + {granted};
        granted := granted + 1;
      } else {
        resolvers := resolvers + [ticket];
      }
    }

    /** The place goes to the first of those waiting. */
    predicate PassesOn()
      reads this
    {
      resolvers != [] && (max.None? || count <= max.value)
    }

    /**
     * A holder gives its ticket back: its place is passed on if somebody waits, unless the count has
     * to come down first. A count of zero resolves the promise for zero.
     */
    method Decrement(ghost ticket: nat)
      requires Valid() && ticket in holders
      modifies `count, `resolvers, `zeroPromise, `granted, `holders, `zeroResolved
      ensures Valid()
      ensures old(PassesOn()) ==>
        && count == old(count) && holders == old(holders) - {ticket} + {old(resolvers)[0]}
        && resolvers == old(resolvers)[1..] && granted == old(granted) + 1
        && zeroPromise == old(zeroPromise) && zeroResolved == old(zeroResolved)
      ensures !old(PassesOn()) ==>
        && count == old(count) - 1 && holders == old(holders) - {ticket}
        && resolvers == old(resolvers) && granted == old(granted)
        && zeroPromise == (if count == 0 then None else old(zeroPromise))
        && zeroResolved ==
           old(zeroResolved) + if count == 0 && old(zeroPromise).Some? then {old(zeroPromise).value} else {}
    {
      if PassesOn() {
        PassOn(ticket);
      } else {
        HolderOut(count, holders, granted, ticket);
        count := count - 1;
        holders := holders - {ticket};
        ResolveZero();
      }
    }

    /** When the count has come down to zero, the promise for zero resolves. */
    method ResolveZero()
      requires ZeroFits(count + 1, zeroPromise, zeroPromises, zeroResolved)
      modifies `zeroPromise, `zeroResolved
      ensures ZeroFits(count, zeroPromise, zeroPromises, zeroResolved)
      ensures zeroPromise == (if count == 0 then None else old(zeroPromise))
      ensures zeroResolved ==
              old(zeroResolved) + if count == 0 && old(zeroPromise).Some? then {old(zeroPromise).value} else {}
    {
      if count == 0 && zeroPromise.Some? {
        zeroResolved := zeroResolved + {zeroPromise.value};
        zeroPromise := None;
      }
    }

    /** The first of those waiting takes over the place of a holder. */
    method PassOn(ghost ticket: nat)
      requires HoldersFit(count, holders, granted) && QueueFits(resolvers, granted, issued) && resolvers != []
          && ticket in holders
      modifies `resolvers, `granted, `holders
      ensures HoldersFit(count, holders, granted) && QueueFits(resolvers, granted, issued)
      ensures holders == old(holders) - {ticket} + {old(resolvers)[0]}
      ensures resolvers == old(resolvers)[1..] && granted == old(granted) + 1
    {
      HolderOut(count, holders, granted, ticket);
      Shifted(resolvers, granted, issued);
      HolderIn(count - 1, holders - {ticket}, granted);
      holders := holders - {ticket} + {granted};
      granted := granted + 1;
      resolvers := resolvers[1..];
    }

    /** Lets in the first of those waiting. */
    method Admit()
      requires HoldersFit(count, holders, granted) && QueueFits(resolvers, granted, issued) && resolvers != []
      modifies `count, `resolvers, `granted, `holders
      ensures HoldersFit(count, holders, granted) && QueueFits(resolvers, granted, issued)
      ensures count == old(count) + 1 && granted == old(granted) + 1
      ensures resolvers == old(resolvers)[1..] && holders == old(holders) + {old(granted)}
    {
      Shifted(resolvers, granted, issued);
      HolderIn(count, holders, granted);
      count := count + 1;
      holders := holders + {granted};
      granted := granted + 1;
      resolvers := resolvers[1..];
    }

    /** Changes the maximum and lets in as many of those waiting as there is room for now. */
    method SetMax(max: Option<int>)
      requires Valid()
      modifies `max, `count, `resolvers, `granted, `holders, `grantedAtMax
      ensures Valid() && this.max == max
      ensures old(granted) <= granted && forall t :: t in holders <==> t in old(holders) || old(granted) <= t < granted
      ensures count == old(count) + (granted - old(granted)) && granted - old(granted) <= |old(resolvers)|
      ensures resolvers == old(resolvers)[granted - old(granted)..]
      ensures resolvers != [] ==> max.Some? && count >= max.value
      ensures granted > old(granted) ==> max.None? || count <= max.value
    {
      this.max := max;
      while resolvers != [] && HasRoom(count, max)
        invariant this.max == max && HoldersFit(count, holders, granted) && QueueFits(resolvers, granted, issued)
        invariant old(granted) <= granted && count == old(count) + (granted - old(granted))
        invariant granted - old(granted) <= |old(resolvers)| && resolvers == old(resolvers)[granted - old(granted)..]
        invariant forall t :: t in holders <==> t in old(holders) || old(granted) <= t < granted
        invariant granted > old(granted) ==> max.None? || count <= max.value
        invariant grantedAtMax == old(grantedAtMax) && ZeroFits(old(count), zeroPromise, zeroPromises, zeroResolved)
        decreases |resolvers|
      {
        Admit();
      }
      grantedAtMax := granted;
    }

    /** Resolved already when the count is zero; else all callers share one promise. */
    method WaitForZero() returns (promise: Option<nat>)
      requires Valid()
      modifies `zeroPromise, `zeroPromises
      ensures Valid() && (promise.None? <==> count == 0)
      ensures promise.Some? ==> zeroPromise == promise && promise.value !in zeroResolved
      ensures promise.Some? && old(zeroPromise).Some? ==> promise == old(zeroPromise)
    {
      if count == 0 {
        return None;
      }
      if zeroPromise.None? {
        zeroPromise := Some(zeroPromises);
        zeroPromises := zeroPromises + 1;
      }
      return zeroPromise;
    }
  }
}
