/** The vocabulary both book implementations share, and the decoded messages that drive them. */
module BookTypes {

  type u8 = x: int | 0 <= x < 0x100
  type u16 = x: int | 0 <= x < 0x1_0000
  type u32 = x: int | 0 <= x < 0x1_0000_0000
  type u64 = x: int | 0 <= x < 0x1_0000_0000_0000_0000

  /** Four implied decimal places, so one cent is 100. */
  type Price = u32
  type Ref = u64
  type Shares = u32
  type Locate = u16

  const BUY: u8 := 'B' as u8
  const SELL: u8 := 'S' as u8

  /** Marks an absent pool slot, and an unoccupied index slot. */
  const NO_ORDER: u32 := 0xFFFF_FFFF

  datatype Option<+T> = None | Some(value: T)

  /** Counts a condition. */
  function One(b: bool): nat { if b then 1 else 0 }

  datatype ReduceKind = Executed | ExecutedWithPrice | Cancelled

  /** A decoded message. 'A' and 'F' differ only in attribution, which no book compares. */
  datatype Message =
    | SystemEvent(code: u8)
    | StockDirectory(locate: Locate)
    | TradingAction(locate: Locate, state: u8)
    | OperationalHalt(locate: Locate, market: u8, action: u8)
    | Add(locate: Locate, ref: Ref, side: u8, price: Price, shares: Shares)
    | Reduce(kind: ReduceKind, locate: Locate, ref: Ref, qty: Shares)
    | Delete(locate: Locate, ref: Ref)
    | Replace(locate: Locate, oldRef: Ref, newRef: Ref, price: Price, shares: Shares)
    | Trade(locate: Locate, price: Price)
    | CrossTrade(locate: Locate, crossShares: u64)
    | BrokenTrade(locate: Locate)

  /** One level as both books report it; an empty level and an absent one look the same. */
  datatype Snapshot = Snapshot(present: bool, shares: nat, orders: nat, fifo: seq<Ref>)

  const ABSENT := Snapshot(false, 0, 0, [])

  /** The counters both books keep and the differential harness expects to agree. */
  datatype Counters = Counters(
    orphanExecute: nat, orphanExecutePrice: nat, orphanCancel: nat, orphanDelete: nat, orphanReplace: nat,
    duplicateAdd: nat, zeroShareCross: nat, removedAtZero: nat, overExecute: nat,
    crossed: nat, locked: nat, afterEndOfHours: nat, bookMessages: nat)

  const ZERO_COUNTERS := Counters(0, 0, 0, 0, 0, 0, 0, 0, 0, 0, 0, 0, 0)

  function CountOrphan(c: Counters, kind: ReduceKind): Counters {
    match kind
    case Executed => c.(orphanExecute := c.orphanExecute + 1)
    case ExecutedWithPrice => c.(orphanExecutePrice := c.orphanExecutePrice + 1)
    case Cancelled => c.(orphanCancel := c.orphanCancel + 1)
  }

  /** One call per message, before any book effect. */
  function CountMessage(c: Counters, afterHours: bool): Counters {
    c.(bookMessages := c.bookMessages + 1, afterEndOfHours := c.afterEndOfHours + if afterHours then 1 else 0)
  }
}
