/**
 * One run of the DCA script (scripts/dca.py, `main`): plan the order from
 * the last traded price with the script's constants, record the run in the
 * log, and build the signed order request. The price fetch, the clock and
 * the network are parameters: `ltp` is what `get_ltp` returned, `time` the
 * formatted local time, `timestamp` the signing timestamp.
 */
module Dca {
  import opened Wrappers
  import opened OrderPlanning
  import opened TradeLog
  import opened BitFlyerPrvApi
  import opened Endpoints

  /**
   * A failed plan is the exception that ends the script before the log is
   * written; otherwise the log gains exactly this run's entry and the
   * order request for the planned price and size is returned.
   */
  method Run(log: LogFile, ltp: Option<int>, time: string, apiKey: string, apiSecret: string,
             timestamp: string, hmac: HmacHex, dumps: JsonObject -> string)
    returns (order: Result<HttpRequest, PlanError>)
    modifies log
    ensures var plan := Plan(ltp, Unit, DcaAmount);
            && (plan.Failure? ==> order == Failure(plan.error) && log.rows == old(log.rows))
            && (plan.Success? ==>
                  && log.rows == Some(AfterRun(old(log.rows),
                                               Entry(time, plan.value.price, plan.value.sizeThousandths, ltp.value)))
                  && order == Success(OrderRequest(apiKey, apiSecret, plan.value.price,
                                                   plan.value.sizeThousandths, dumps, timestamp, hmac)))
  {
    var plan := Plan(ltp, Unit, DcaAmount);
    if plan.Failure? {
      return Failure(plan.error);
    }
    var price, size := plan.value.price, plan.value.sizeThousandths;
    log.WriteEntry(Entry(time, price, size, ltp.value));
    order := Success(OrderRequest(apiKey, apiSecret, price, size, dumps, timestamp, hmac));
  }
}
