/** A store: a coin reservoir with a fixed initial balance and a lifetime
    counter of how often it was emptied. Its shapes (walls, roof, door) and
    the wall-colour counter are presentation only and are not modelled. */
module Stores {

  /** `id` stands for the Java object's identity (segments refer to stores by it). */
  datatype Store = Store(id: nat, coins: int, initialCoins: int, timesEmptied: nat)

  /** `new Store(x, y, coins)`: the balance starts full and nothing has been emptied. */
  function NewStore(id: nat, coins: int): (r: Store)
    ensures r.id == id
    ensures r.coins == coins && r.initialCoins == coins
    ensures r.timesEmptied == 0
  {
    Store(id, coins, coins, 0)
  }

  /** `setCoins`: the counter goes up by one exactly when a non-empty balance becomes 0. */
  function SetCoins(st: Store, value: int): (r: Store)
    ensures r.coins == value
    ensures r.id == st.id && r.initialCoins == st.initialCoins
    ensures r.timesEmptied > st.timesEmptied <==> st.coins != 0 && value == 0
    ensures st.timesEmptied <= r.timesEmptied <= st.timesEmptied + 1
  {
    var emptied := st.coins != 0 && value == 0;
    st.(coins := value, timesEmptied := if emptied then st.timesEmptied + 1 else st.timesEmptied)
  }

  /** `restock`: the balance returns to the initial coins; the counter is a lifetime count and stays. */
  function Restock(st: Store): (r: Store)
    ensures r.coins == st.initialCoins
    ensures r.id == st.id && r.initialCoins == st.initialCoins && r.timesEmptied == st.timesEmptied
  {
    st.(coins := st.initialCoins)
  }

  /** The two mutators of a store, for reasoning about its whole life. */
  datatype StoreOp = SetTo(value: int) | RestockOp

  function Apply(st: Store, op: StoreOp): Store {
    match op
    case SetTo(v) => SetCoins(st, v)
    case RestockOp => Restock(st)
  }

  function ApplyAll(st: Store, ops: seq<StoreOp>): Store
    decreases |ops|
  {
    if |ops| == 0 then st else ApplyAll(Apply(st, ops[0]), ops[1..])
  }

  /** How many operations of `ops`, run from `st`, take a non-zero balance to 0 by `setCoins`. */
  function Emptyings(st: Store, ops: seq<StoreOp>): nat
    decreases |ops|
  {
    if |ops| == 0 then 0
    else
      (if ops[0].SetTo? && st.coins != 0 && ops[0].value == 0 then 1 else 0)
      + Emptyings(Apply(st, ops[0]), ops[1..])
  }

  /** Over any sequence of operations, identity and initial coins never change, and
      `timesEmptied` grows by exactly the number of non-zero-to-zero transitions
      (so it never decreases). */
  lemma {:induction false} StoreLifetime(st: Store, ops: seq<StoreOp>)
    ensures ApplyAll(st, ops).id == st.id
    ensures ApplyAll(st, ops).initialCoins == st.initialCoins
    ensures ApplyAll(st, ops).timesEmptied == st.timesEmptied + Emptyings(st, ops)
    decreases |ops|
  {
    if |ops| > 0 {
      StoreLifetime(Apply(st, ops[0]), ops[1..]);
    }
  }

  /** Setting 0 on an already empty store does not count as emptying it. */
  lemma ZeroOnEmptyDoesNotCount(st: Store)
    requires st.coins == 0
    ensures SetCoins(st, 0).timesEmptied == st.timesEmptied
  {
  }
}
