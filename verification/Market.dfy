/** Names shared by the trading and data modules. */
module Market {
  /** A symbol is identified by these three parts. */
  datatype Symbol = Symbol(ticker: string, securityType: string, exchange: string)

  datatype Side = Buy | Sell
}
