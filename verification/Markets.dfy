/** The two markets. */
module Markets {

  datatype Market = KR | US

  function MarketText(m: Market): string {
    match m
    case KR => "KR"
    case US => "US"
  }
}
