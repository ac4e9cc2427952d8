/** The enumerable index of the token whitelist: a dense array with removal by swapping
    in the last entry. */
module TokenIndex {
  import opened Numeric
  import opened Types
  import opened Escrow
  import World

  /** SupportedToken flags beside SupportedTokenAt, SupportedTokenSlot and SupportedTokenCount. */
  datatype Index = Index(flags: set<Address>, at: map<U32, Address>, slot: map<Address, U32>, count: U32)

  const EMPTY := Index({}, map[], map[], 0)

  function SlotOf(ix: Index, token: Address): U32 { if token in ix.slot then ix.slot[token] else 0 }

  function Append(ix: Index, token: Address): Index {
    if SlotOf(ix, token) != 0 then ix
    else
      var slot := SatAdd32(ix.count, 1);
      ix.(at := ix.at[ix.count := token], slot := ix.slot[token := slot], count := slot)
  }

  function Remove(ix: Index, token: Address): Index {
    var slot := SlotOf(ix, token);
    if slot == 0 then ix
    else
      var idx, last := SatSub32(slot, 1), SatSub32(ix.count, 1);
      var moved := if idx != last && last in ix.at
                   then ix.(at := ix.at[idx := ix.at[last]], slot := ix.slot[ix.at[last] := slot]) else ix;
      moved.(at := moved.at - {last}, slot := moved.slot - {token}, count := last)
  }

  function Register(ix: Index, token: Address): Index {
    Append(ix.(flags := ix.flags + {token}), token)
  }

  function Deregister(ix: Index, token: Address): Index {
    Remove(ix.(flags := ix.flags - {token}), token)
  }

  /** The array has no gaps, array and slots are inverse, and they hold what is flagged. */
  ghost predicate Inv(ix: Index) {
    && (forall i: U32 :: i in ix.at <==> i < ix.count)
    && (forall i :: i in ix.at ==> ix.at[i] in ix.slot && ix.slot[ix.at[i]] == i + 1)
    && (forall t :: t in ix.slot ==> exists i :: i in ix.at && ix.at[i] == t)
    && ix.slot.Keys == ix.flags
  }

  lemma SlotIsPlace(ix: Index, token: Address)
    requires Inv(ix) && token in ix.slot
    ensures 0 < ix.slot[token] <= ix.count
    ensures ix.slot[token] - 1 in ix.at && ix.at[ix.slot[token] - 1] == token
  {
    var i :| i in ix.at && ix.at[i] == token;
    assert ix.slot[ix.at[i]] == i + 1;
  }

  lemma AppendedPlaces(ix: Index, token: Address)
    requires Inv(ix) && token !in ix.flags && ix.count < U32_MAX
    ensures Inv(Register(ix, token))
  {
    var r := Register(ix, token);
    forall t | t in r.slot
      ensures exists i :: i in r.at && r.at[i] == t
    {
      if t == token {
        assert r.at[ix.count] == t;
      } else {
        SlotIsPlace(ix, t);
        assert r.at[ix.slot[t] - 1] == t;
      }
    }
  }

  /** Registering keeps the index exactly when the token is there already or a u32 can count
      one more: at its limit the count stops, and leaves the new entry outside it. */
  lemma RegisterRefines(ix: Index, token: Address)
    requires Inv(ix)
    ensures Inv(Register(ix, token)) <==> ix.count < U32_MAX || token in ix.flags
    ensures Register(ix, token).flags == ix.flags + {token}
  {
    if token in ix.slot {
      SlotIsPlace(ix, token);
      assert ix.flags + {token} == ix.flags;
    } else if ix.count < U32_MAX {
      AppendedPlaces(ix, token);
    } else {
      assert ix.count in Register(ix, token).at;
    }
  }

  /** Removing the token at idx: the last entry takes its place. */
  ghost predicate SwappedOut(ix: Index, r: Index, token: Address, idx: U32, last: U32) {
    && idx <= last < U32_MAX && ix.count == last + 1 && r.count == last
    && last in ix.at && idx in ix.at && ix.at[idx] == token
    && r.at == ix.at[idx := ix.at[last]] - {last}
    && r.slot == ix.slot[ix.at[last] := idx + 1] - {token}
  }

  lemma DeregisterSwaps(ix: Index, token: Address)
    requires Inv(ix) && token in ix.slot
    ensures SwappedOut(ix, Deregister(ix, token), token, ix.slot[token] - 1, ix.count - 1)
  {
    SlotIsPlace(ix, token);
    var last: U32 := ix.count - 1;
    assert last in ix.at;
    if ix.slot[token] - 1 == last {
      assert ix.at[last := ix.at[last]] == ix.at;
      assert ix.slot[token := ix.slot[token]] == ix.slot;
    }
  }

  lemma SwappedPlaces(ix: Index, r: Index, token: Address, idx: U32, last: U32)
    requires Inv(ix) && SwappedOut(ix, r, token, idx, last)
    ensures forall i: U32 :: i in r.at <==> i < r.count
    ensures forall i :: i in r.at ==> r.at[i] in r.slot && r.slot[r.at[i]] == i + 1
  {
  }

  lemma SwappedSlots(ix: Index, r: Index, token: Address, idx: U32, last: U32, t: Address)
    requires Inv(ix) && SwappedOut(ix, r, token, idx, last) && t in r.slot
    ensures exists i :: i in r.at && r.at[i] == t
  {
    SlotIsPlace(ix, t);
    if t == ix.at[last] {
      assert idx in r.at && r.at[idx] == t;
    } else {
      var i: U32 := ix.slot[t] - 1;
      assert i in ix.at && ix.at[i] == t;
      assert i in r.at && r.at[i] == t;
    }
  }

  lemma DeregisterRefines(ix: Index, token: Address)
    requires Inv(ix)
    ensures Inv(Deregister(ix, token)) && Deregister(ix, token).flags == ix.flags - {token}
    ensures Deregister(ix, token).count == if token in ix.flags then ix.count - 1 else ix.count
  {
    if token in ix.slot {
      var r, idx, last := Deregister(ix, token), ix.slot[token] - 1, ix.count - 1;
      DeregisterSwaps(ix, token);
      SwappedPlaces(ix, r, token, idx, last);
      forall t | t in r.slot
        ensures exists i :: i in r.at && r.at[i] == t
      {
        SwappedSlots(ix, r, token, idx, last, t);
      }
      assert ix.slot[ix.at[last]] == last + 1;
      assert r.slot.Keys == ix.slot.Keys - {token};
    } else {
      assert ix.flags - {token} == ix.flags;
    }
  }

  /** The count is the number of supported tokens. */
  lemma {:induction false} CountIsSize(ix: Index)
    requires Inv(ix)
    ensures |ix.flags| == ix.count
    decreases ix.count
  {
    if ix.count == 0 {
      assert ix.flags == {} by {
        if t :| t in ix.flags {
          SlotIsPlace(ix, t);
        }
      }
    } else {
      var token := ix.at[ix.count - 1];
      DeregisterRefines(ix, token);
      CountIsSize(Deregister(ix, token));
      assert ix.flags == Deregister(ix, token).flags + {token};
    }
  }

  // ---- runs ------------------------------------------------------------------------------

  datatype Change = Add(token: Address) | Drop(token: Address)

  function Alter(ix: Index, c: Change): Index {
    match c
    case Add(token) => Register(ix, token)
    case Drop(token) => Deregister(ix, token)
  }

  function Replay(ix: Index, changes: seq<Change>): Index {
    if changes == [] then ix else Alter(Replay(ix, changes[..|changes| - 1]), changes[|changes| - 1])
  }

  /** The set the same changes describe. */
  function ReplaySet(s: set<Address>, changes: seq<Change>): set<Address> {
    if changes == [] then s
    else
      var before := ReplaySet(s, changes[..|changes| - 1]);
      match changes[|changes| - 1]
      case Add(token) => before + {token}
      case Drop(token) => before - {token}
  }

  /** At no point of the run are more tokens supported than a u32 can count. */
  ghost predicate Countable(changes: seq<Change>) {
    && |ReplaySet({}, changes)| <= U32_MAX
    && (changes == [] || Countable(changes[..|changes| - 1]))
  }

  lemma OneMore(s: set<Address>, t: Address)
    requires t !in s
    ensures |s + {t}| == |s| + 1
  {
  }

  lemma {:induction false} ReplayKeeps(changes: seq<Change>)
    requires Countable(changes)
    ensures Inv(Replay(EMPTY, changes)) && Replay(EMPTY, changes).flags == ReplaySet({}, changes)
    decreases |changes|
  {
    if changes != [] {
      var init := changes[..|changes| - 1];
      var ix := Replay(EMPTY, init);
      ReplayKeeps(init);
      match changes[|changes| - 1]
      case Add(token) =>
        CountIsSize(ix);
        if token !in ix.flags {
          OneMore(ix.flags, token);
        }
        RegisterRefines(ix, token);
      case Drop(token) => DeregisterRefines(ix, token);
    }
  }

  lemma DenseArray(ix: Index)
    requires Inv(ix)
    ensures forall t :: t in ix.flags <==> exists i: U32 :: i < ix.count && i in ix.at && ix.at[i] == t
    ensures forall i: U32, j: U32 :: i < j < ix.count ==> i in ix.at && j in ix.at && ix.at[i] != ix.at[j]
  {
    forall t | t in ix.flags
      ensures exists i: U32 :: i < ix.count && i in ix.at && ix.at[i] == t
    {
      SlotIsPlace(ix, t);
    }
    forall i: U32, j: U32 | i < j < ix.count
      ensures i in ix.at && j in ix.at && ix.at[i] != ix.at[j]
    {
      assert i in ix.at && j in ix.at;
      assert ix.slot[ix.at[i]] == i + 1 && ix.slot[ix.at[j]] == j + 1;
    }
  }

  /** The index refines a set: after any run of changes, the flags, the count and the dense
      array hold exactly the tokens the changes describe, each once and with no gap. */
  lemma IndexRefinesSet(changes: seq<Change>)
    requires Countable(changes)
    ensures var ix, s := Replay(EMPTY, changes), ReplaySet({}, changes);
            && ix.flags == s && ix.count == |s| && ix.slot.Keys == s
            && (forall t :: t in s <==> exists i: U32 :: i < ix.count && i in ix.at && ix.at[i] == t)
            && (forall i: U32, j: U32 :: i < j < ix.count ==> i in ix.at && j in ix.at && ix.at[i] != ix.at[j])
  {
    ReplayKeeps(changes);
    CountIsSize(Replay(EMPTY, changes));
    DenseArray(Replay(EMPTY, changes));
  }

  // ---- the contract's entry points -------------------------------------------------------

  class Whitelist {
    var flags: set<Address>
    var at: map<U32, Address>
    var slot: map<Address, U32>
    var count: U32
    const admin: Address

    constructor (admin: Address)
      ensures View() == EMPTY && this.admin == admin
    {
      this.admin := admin;
      flags, at, slot, count := {}, map[], map[], 0;
    }

    ghost function View(): Index
      reads this
    {
      Index(flags, at, slot, count)
    }

    method AppendToken(token: Address)
      modifies this
      ensures View() == Append(old(View()), token)
    {
      if token in slot && slot[token] != 0 {
        return;
      }
      at := at[count := token];
      var place := SatAdd32(count, 1);
      slot := slot[token := place];
      count := place;
    }

    method RemoveToken(token: Address)
      modifies this
      ensures View() == Remove(old(View()), token)
    {
      var place := if token in slot then slot[token] else 0;
      if place == 0 {
        return;
      }
      var idx := SatSub32(place, 1);
      var last := SatSub32(count, 1);
      if idx != last && last in at {
        var moved := at[last];
        at := at[idx := moved];
        slot := slot[moved := place];
      }
      at := at - {last};
      slot := slot - {token};
      count := last;
    }

    method RegisterToken(env: Env, token: Address) returns (r: Result<()>)
      modifies this
      ensures r == if admin in env.auths && admin != SELF then Ok(()) else Err(Unauthorized)
      ensures View() == if r.Ok? then Register(old(View()), token) else old(View())
    {
      var auth := World.RequireAuth(env, admin);
      if auth.Fail? {
        return Err(auth.error);
      }
      flags := flags + {token};
      AppendToken(token);
      return Ok(());
    }

    method DeregisterToken(env: Env, token: Address) returns (r: Result<()>)
      modifies this
      ensures r == if admin in env.auths && admin != SELF then Ok(()) else Err(Unauthorized)
      ensures View() == if r.Ok? then Deregister(old(View()), token) else old(View())
    {
      var auth := World.RequireAuth(env, admin);
      if auth.Fail? {
        return Err(auth.error);
      }
      flags := flags - {token};
      RemoveToken(token);
      return Ok(());
    }
  }
}
