/** A broker fill, as the extrema and operator-rule scripts load it. Times are microseconds. */
module Fills {

  datatype Side = Buy | Sell | OtherSide

  /** One piece of an entry that a later sell closed. */
  datatype Exit = Exit(quantity: real, sell: Fill)

  class Fill {
    const day: string
    const account: string
    const symbol: string
    const side: Side
    const quantity: real
    const price: real
    const at: int
    const slotId: string
    var exits: seq<Exit>

    constructor (day: string, account: string, symbol: string, side: Side, quantity: real, price: real, at: int,
                 slotId: string)
      ensures this.day == day && this.account == account && this.symbol == symbol && this.side == side
      ensures this.quantity == quantity && this.price == price && this.at == at && this.slotId == slotId
      ensures exits == []
    {
      this.day, this.account, this.symbol, this.side := day, account, symbol, side;
      this.quantity, this.price, this.at, this.slotId := quantity, price, at, slotId;
      exits := [];
    }
  }
}
