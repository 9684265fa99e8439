/** The trading-domain values that strategies, the risk gate, the runtime and the tables exchange. */
module Types {
  import opened Wrappers
  import opened Decimals

  /** Nanoseconds on the runtime's clock. */
  type Time = int

  datatype Side = Buy | Sell {
    function Text(): string {
      match this
      case Buy => "buy"
      case Sell => "sell"
    }
  }

  datatype Asset = Asset(symbol: string, chain: string, mint: string)

  const NO_ASSET := Asset("", "", "")

  datatype SwapIntent = SwapIntent(
    chain: string, inToken: Asset, outToken: Asset, inAmount: real,
    slippageBps: int, clientId: string, basisKey: string)
  {
    /** The spot leg of a new basis: USDC into something else. */
    predicate IsOpening() {
      inToken.symbol == "USDC" && outToken.symbol != "USDC"
    }
  }

  datatype OrderIntent = OrderIntent(
    venue: string, symbol: string, side: Side, price: real, size: real,
    reduceOnly: bool, clientId: string, basisKey: string)
  {
    function Notional(): real {
      Abs(price * size)
    }

    /** The perp leg of a new basis: a short that may increase the position. */
    predicate IsHedge() {
      !reduceOnly && side == Sell
    }
  }

  datatype Decision = Decision(swaps: seq<SwapIntent>, orders: seq<OrderIntent>, cancels: seq<string>)

  datatype LegKind = Spot | Perp

  datatype Leg = Leg(kind: LegKind, asset: Asset, symbol: string, qty: real, avgPrice: real)

  datatype BasisState = Opening | Open | Closing | Broken | Closed {
    /** The states the table's partial unique index and the hydration query cover. */
    predicate IsLive() {
      Opening? || Open? || Closing?
    }
  }

  datatype BasisPosition = BasisPosition(
    id: string, agentId: string, underlying: string, state: BasisState,
    legs: seq<Leg>, openedAt: Time, closedAt: Option<Time>)

  datatype SwapStatus = SwapPending | SwapConfirmed | SwapFailed

  datatype OrderStatus = OrderOpen | OrderPartial | OrderFilled | OrderCancelled | OrderRejected
}
