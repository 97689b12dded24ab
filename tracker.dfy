/**
 * `run_scraper`: one tick of the tracker, over one database transaction.
 * It fetches the three quotes, inserts them under one shared timestamp,
 * writes the stats, detects and writes the alerts, posts them to Slack when
 * there are any, then commits; any exception rolls the tick's inserts back.
 * The HTTP reply, the clock reading, the Slack webhook setting and whether
 * the Slack post raises are inputs.
 */
module Tracker {
  import opened Records
  import opened Store
  import opened Stats
  import opened Alerts
  import opened Slack

  /** `variation_alert_threshold`: alerts fire on a change of more than 2% in absolute value. */
  const VariationAlertThreshold: real := 2.0

  /** The decoded JSON body of the price request: coin id, then currency, then quote. */
  type Quotes = map<string, map<string, real>>

  /** What `requests.get` gives: no reply at all (it raised), or a status and a body. */
  datatype Response = Unreachable | Reply(status: int, body: Quotes)

  /** What `fetch_prices` gives: a ticker-to-price dict in insertion order, or an exception. */
  datatype Fetch = Fetched(prices: seq<(string, real)>) | Raised

  /** Ticker and coin id of each tracked crypto, in the order of the returned dict. */
  const Coins: seq<(string, string)> := [("BTC", "bitcoin"), ("ETH", "ethereum"), ("XRP", "ripple")]

  /** `data[id]["usd"]`, or `None` where that lookup raises `KeyError`. */
  function Quote(body: Quotes, id: string): Option<real>
  {
    if id in body && "usd" in body[id] then Some(body[id]["usd"]) else None
  }

  /** `fetch_prices()` */
  function FetchPrices(response: Response): (r: Fetch)
    ensures response.Unreachable? ==> r == Raised
    ensures response.Reply? && response.status != 200 ==> r == Fetched([])
    ensures response.Reply? && response.status == 200 ==>
      (r.Fetched? <==> forall k :: 0 <= k < |Coins| ==> Quote(response.body, Coins[k].1).Some?)
    ensures response.Reply? && response.status == 200 && r.Fetched? ==>
      |r.prices| == |Coins| &&
      forall k :: 0 <= k < |Coins| ==> r.prices[k] == (Coins[k].0, Quote(response.body, Coins[k].1).value)
  {
    match response
    case Unreachable => Raised
    case Reply(status, body) =>
      if status != 200 then Fetched([])
      else
        match (Quote(body, "bitcoin"), Quote(body, "ethereum"), Quote(body, "ripple"))
        case (Some(btc), Some(eth), Some(xrp)) => Fetched([("BTC", btc), ("ETH", eth), ("XRP", xrp)])
        case _ =>
          assert Coins[0].1 == "bitcoin" && Coins[1].1 == "ethereum" && Coins[2].1 == "ripple";
          Raised
  }

  /** Every `usd` quote of a tracked coin in a 200 reply, where present, is a positive price. */
  predicate PositiveQuotes(response: Response)
  {
    response.Reply? && response.status == 200 ==>
      forall k :: 0 <= k < |Coins| && Quote(response.body, Coins[k].1).Some? ==>
        Quote(response.body, Coins[k].1).value > 0.0
  }

  lemma FetchedPositive(response: Response)
    requires PositiveQuotes(response) && FetchPrices(response).Fetched?
    ensures forall k :: 0 <= k < |FetchPrices(response).prices| ==> FetchPrices(response).prices[k].1 > 0.0
  {
  }

  /** The `prices` rows of one tick: every fetched price, in order, stamped with the tick's clock reading. */
  function StampRows(prices: seq<(string, real)>, now: int): (rows: seq<PriceRow>)
    ensures |rows| == |prices|
    ensures forall k :: 0 <= k < |rows| ==> rows[k] == PriceRow(now, prices[k].0, prices[k].1)
  {
    if prices == [] then [] else StampRows(prices[..|prices| - 1], now) + [PriceRow(now, prices[|prices| - 1].0, prices[|prices| - 1].1)]
  }

  /** Rows stamped no earlier than every stored row keep the store's invariants. */
  lemma StampKeepsInvariants(rows: seq<PriceRow>, prices: seq<(string, real)>, now: int)
    requires Positive(rows) && TimeOrdered(rows) && NotAfter(rows, now)
    requires forall k :: 0 <= k < |prices| ==> prices[k].1 > 0.0
    ensures Positive(rows + StampRows(prices, now))
    ensures TimeOrdered(rows + StampRows(prices, now))
    ensures NotAfter(rows + StampRows(prices, now), now)
  {
    var all := rows + StampRows(prices, now);
    forall i | 0 <= i < |all| ensures all[i].price > 0.0 && all[i].timestamp <= now {
      if i >= |rows| {
        assert all[i] == StampRows(prices, now)[i - |rows|];
      } else {
        assert all[i] == rows[i];
      }
    }
    forall i, j | 0 <= i < j < |all| && all[i].crypto == all[j].crypto
      ensures all[i].timestamp <= all[j].timestamp
    {
      if j < |rows| {
        assert all[i] == rows[i] && all[j] == rows[j];
      } else {
        assert all[j] == StampRows(prices, now)[j - |rows|];
      }
    }
  }

  /** The state one tick leaves in the database, and the text it handed to the Slack post, if any. */
  datatype Tick = Tick(db: Tables, posted: Option<string>)

  /** The alerts message of a tick, or `None` when there are no alerts. */
  function Notification(alerts: seq<AlertRow>, rend: Renderers): Option<string>
  {
    if alerts == [] then None else Some(Joined(MessageLines(alerts, rend)))
  }

  /**
   * The `prices` table a tick writes before it commits: the stored samples, then
   * one row per fetched quote under the tick's clock reading (nothing when the fetch raised).
   */
  ghost function TickPrices(db: Tables, response: Response, now: int): (prices: seq<PriceRow>)
    requires Positive(db.prices) && TimeOrdered(db.prices) && NotAfter(db.prices, now)
    requires PositiveQuotes(response)
    ensures db.prices <= prices
    ensures Positive(prices) && TimeOrdered(prices) && NotAfter(prices, now)
  {
    match FetchPrices(response)
    case Raised => db.prices
    case Fetched(quotes) =>
      FetchedPositive(response);
      StampKeepsInvariants(db.prices, quotes, now);
      db.prices + StampRows(quotes, now)
  }

  /**
   * One tick, as a function of the committed database `db` it starts from:
   * what is committed at its end (`db` itself after a rollback) and what it posted.
   */
  ghost function TickSpec(db: Tables, response: Response, now: int, std: seq<real> -> real,
                          webhook: Option<string>, postRaises: bool, rend: Renderers): Tick
    requires Positive(db.prices) && TimeOrdered(db.prices) && NotAfter(db.prices, now)
    requires PositiveQuotes(response)
  {
    if FetchPrices(response).Raised? then Tick(db, None)
    else
      var prices := TickPrices(db, response, now);
      var alerts := AlertsSpec(prices, VariationAlertThreshold);
      var written := Tables(prices, db.stats + StatsSpec(prices, now, std), db.alerts + alerts);
      var posted := if WebhookSet(webhook) then Notification(alerts, rend) else None;
      if posted.Some? && postRaises then Tick(db, posted) else Tick(written, posted)
  }

  /** The insert loop: `for crypto, price in prices.items()`, each row under the shared timestamp. */
  method InsertPrices(conn: Connection, prices: seq<(string, real)>, now: int)
    requires conn.Valid()
    modifies conn
    ensures conn.Valid() && conn.committed == old(conn.committed)
    ensures conn.view == old(conn.view).(prices := old(conn.view.prices) + StampRows(prices, now))
  {
    for k := 0 to |prices|
      invariant conn.Valid() && conn.committed == old(conn.committed)
      invariant conn.view == old(conn.view).(prices := old(conn.view.prices) + StampRows(prices[..k], now))
    {
      var (crypto, price) := prices[k];
      conn.InsertPrice(PriceRow(now, crypto, price));
      assert prices[..k + 1][..k] == prices[..k];
    }
    assert prices[..|prices|] == prices;
  }

  /** `if webhook_url:`: `SLACK_WEBHOOK_URL` is set and not empty. */
  predicate WebhookSet(webhook: Option<string>)
  {
    webhook.Some? && webhook.value != ""
  }

  /** `send_slack_alert(message)`: posts only when the webhook is configured; gives the text posted. */
  method SendSlackAlert(message: string, webhook: Option<string>) returns (posted: Option<string>)
    ensures posted.Some? <==> WebhookSet(webhook)
    ensures posted.Some? ==> posted.value == message
  {
    if webhook.Some? && webhook.value != "" {
      posted := Some(message);
    } else {
      posted := None;
    }
  }

  /** `run_scraper()`, from the moment its connection is open. */
  method RunScraper(conn: Connection, response: Response, now: int, std: seq<real> -> real,
                    webhook: Option<string>, postRaises: bool, rend: Renderers) returns (posted: Option<string>)
    requires conn.Valid() && conn.view == conn.committed
    requires Positive(conn.committed.prices) && TimeOrdered(conn.committed.prices) && NotAfter(conn.committed.prices, now)
    requires PositiveQuotes(response)
    modifies conn
    ensures conn.Valid() && conn.view == conn.committed
    ensures Tick(conn.committed, posted) == TickSpec(old(conn.committed), response, now, std, webhook, postRaises, rend)
  {
    ghost var db := conn.committed;
    var fetched := FetchPrices(response);
    if fetched.Raised? {
      conn.Rollback();
      return None;
    }
    var quotes := fetched.prices;
    FetchedPositive(response);
    StampKeepsInvariants(db.prices, quotes, now);
    InsertPrices(conn, quotes, now);
    CalculateStats(conn, now, std);
    var alerts := CheckForAlerts(conn, VariationAlertThreshold);
    posted := None;
    if alerts != [] {
      var message := FormatAlertsForSlack(alerts, rend);
      posted := SendSlackAlert(message.value, webhook);
      if posted.Some? && postRaises {
        conn.Rollback();
        return;
      }
    }
    conn.Commit();
  }

  /** A tick either commits all of its rows or none of them. */
  lemma TickAllOrNothing(db: Tables, response: Response, now: int, std: seq<real> -> real,
                         webhook: Option<string>, postRaises: bool, rend: Renderers)
    requires Positive(db.prices) && TimeOrdered(db.prices) && NotAfter(db.prices, now)
    requires PositiveQuotes(response)
    ensures var t := TickSpec(db, response, now, std, webhook, postRaises, rend);
      t.db == db ||
      (FetchPrices(response).Fetched? &&
       var prices := TickPrices(db, response, now);
       t.db == Tables(prices, db.stats + StatsSpec(prices, now, std), db.alerts + AlertsSpec(prices, VariationAlertThreshold)))
  {
  }

  /** Every row a tick adds to `prices` carries the tick's one clock reading, one row per fetched crypto, in order. */
  lemma TickSharedTimestamp(db: Tables, response: Response, now: int, std: seq<real> -> real,
                            webhook: Option<string>, postRaises: bool, rend: Renderers)
    requires Positive(db.prices) && TimeOrdered(db.prices) && NotAfter(db.prices, now)
    requires PositiveQuotes(response)
    ensures var t := TickSpec(db, response, now, std, webhook, postRaises, rend);
      db.prices <= t.db.prices &&
      forall i :: |db.prices| <= i < |t.db.prices| ==>
        t.db.prices[i].timestamp == now &&
        (t.db.prices[i].crypto, t.db.prices[i].price) == FetchPrices(response).prices[i - |db.prices|]
  {
    var t := TickSpec(db, response, now, std, webhook, postRaises, rend);
    if t.db != db {
      var added := StampRows(FetchPrices(response).prices, now);
      assert t.db.prices == db.prices + added;
      forall i | |db.prices| <= i < |t.db.prices|
        ensures t.db.prices[i].timestamp == now &&
          (t.db.prices[i].crypto, t.db.prices[i].price) == FetchPrices(response).prices[i - |db.prices|]
      {
        assert t.db.prices[i] == added[i - |db.prices|];
      }
    }
  }

  /**
   * A non-200 reply inserts no price, but the tick still computes stats and
   * alerts over the stored samples, and commits them unless the Slack post raises.
   */
  lemma NonOkReplyStillScans(db: Tables, status: int, body: Quotes, now: int, std: seq<real> -> real,
                             webhook: Option<string>, postRaises: bool, rend: Renderers)
    requires status != 200
    requires Positive(db.prices) && TimeOrdered(db.prices) && NotAfter(db.prices, now)
    requires PositiveQuotes(Reply(status, body))
    ensures var t := TickSpec(db, Reply(status, body), now, std, webhook, postRaises, rend);
      t.db.prices == db.prices &&
      (t.posted.None? || !postRaises ==>
        t.db == Tables(db.prices, db.stats + StatsSpec(db.prices, now, std), db.alerts + AlertsSpec(db.prices, VariationAlertThreshold)))
  {
    assert StampRows([], now) == [];
    assert db.prices + [] == db.prices;
  }

  /** Slack is posted to exactly when the webhook is set and the tick found alerts; the text is their message. */
  lemma TickPostsOnlyAlerts(db: Tables, response: Response, now: int, std: seq<real> -> real,
                            webhook: Option<string>, postRaises: bool, rend: Renderers)
    requires Positive(db.prices) && TimeOrdered(db.prices) && NotAfter(db.prices, now)
    requires PositiveQuotes(response)
    requires FetchPrices(response).Fetched?
    ensures var t := TickSpec(db, response, now, std, webhook, postRaises, rend);
      var alerts := AlertsSpec(TickPrices(db, response, now), VariationAlertThreshold);
      (t.posted.Some? <==> WebhookSet(webhook) && alerts != []) &&
      (t.posted.Some? ==> t.posted.value == Joined(MessageLines(alerts, rend)))
  {
  }

  /** A failed fetch, or a Slack post that raises, leaves the committed database as it was. */
  lemma TickFailureRollsBack(db: Tables, response: Response, now: int, std: seq<real> -> real,
                             webhook: Option<string>, postRaises: bool, rend: Renderers)
    requires Positive(db.prices) && TimeOrdered(db.prices) && NotAfter(db.prices, now)
    requires PositiveQuotes(response)
    ensures var t := TickSpec(db, response, now, std, webhook, postRaises, rend);
      (FetchPrices(response).Raised? || (t.posted.Some? && postRaises)) ==> t.db == db
  {
  }

  /** A tick leaves the invariants the next tick needs, for any later clock reading. */
  lemma TickKeepsInvariants(db: Tables, response: Response, now: int, std: seq<real> -> real,
                            webhook: Option<string>, postRaises: bool, rend: Renderers, later: int)
    requires Positive(db.prices) && TimeOrdered(db.prices) && NotAfter(db.prices, now)
    requires PositiveQuotes(response) && now <= later
    ensures var t := TickSpec(db, response, now, std, webhook, postRaises, rend);
      Positive(t.db.prices) && TimeOrdered(t.db.prices) && NotAfter(t.db.prices, later)
      && Extends(db, t.db)
  {
    var t := TickSpec(db, response, now, std, webhook, postRaises, rend);
    assert NotAfter(t.db.prices, now);
  }

  /** Two ticks on non-200 replies over the same samples insert the same alerts twice: nothing is deduplicated. */
  lemma NonOkTicksRepeatAlerts(db: Tables, status: int, body: Quotes, now1: int, now2: int, std: seq<real> -> real,
                               webhook: Option<string>, rend: Renderers)
    requires status != 200 && now1 <= now2
    requires Positive(db.prices) && TimeOrdered(db.prices) && NotAfter(db.prices, now1)
    requires PositiveQuotes(Reply(status, body))
    ensures var t1 := TickSpec(db, Reply(status, body), now1, std, webhook, false, rend);
      NotAfter(t1.db.prices, now2) &&
      var t2 := TickSpec(t1.db, Reply(status, body), now2, std, webhook, false, rend);
      var found := AlertsSpec(db.prices, VariationAlertThreshold);
      t2.db.alerts == db.alerts + found + found
  {
    TickKeepsInvariants(db, Reply(status, body), now1, std, webhook, false, rend, now2);
    NonOkReplyStillScans(db, status, body, now1, std, webhook, false, rend);
    var t1 := TickSpec(db, Reply(status, body), now1, std, webhook, false, rend);
    NonOkReplyStillScans(t1.db, status, body, now2, std, webhook, false, rend);
  }
}
