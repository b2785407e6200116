/** The FIX 4.4 market-data message of src/fix_parser.hpp.  `double` fields are exact reals,
    string views are strings. */
module FixMessages {

  const SOH: char := 1 as char
  const MAX_ENTRIES: nat := 32

  datatype MsgType = Unknown | MarketDataSnapshot | MarketDataIncremental | NewOrderSingle | ExecutionReport

  /** entryType: 0 bid, 1 ask, 2 trade; updateAction: 0 new, 1 change, 2 delete. */
  datatype MDEntry = MDEntry(entryType: int, updateAction: int, price: real, quantity: real)

  const BLANK_ENTRY := MDEntry(0, 0, 0.0, 0.0)

  /** `entries` holds the first num_entries cells of the source's array. */
  datatype FixMessage = FixMessage(
    msgType: MsgType,
    seqNum: int,
    sender: string,
    target: string,
    sendTime: string,
    symbol: string,
    reqId: string,
    entries: seq<MDEntry>,
    order: OrderFields)

  /** The fields of 35=D and 35=8 messages. */
  datatype OrderFields = OrderFields(
    clOrdId: string, execId: string, side: int, ordType: int, ordStatus: int,
    timeInForce: int, orderPrice: real, orderQty: real, lastQty: real, lastPx: real)

  const BLANK_ORDER := OrderFields("", "", 0, 0, 0, 0, 0.0, 0.0, 0.0, 0.0)
  const BLANK_MESSAGE := FixMessage(Unknown, 0, "", "", "", "", "", [], BLANK_ORDER)
}
