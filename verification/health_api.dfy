/** The health endpoint (src/api/health.rs): it probes the database and,
    when its credentials are configured, the wallet API, and answers 200
    only when every configured dependency is up.

    The database probe's outcome and the wallet API exchange are inputs;
    response times, the timestamp and the version string are not modelled. */
module HealthApi {
  import opened Base
  import WQ = WalletQr

  const Healthy: string := "healthy"
  const Unhealthy: string := "unhealthy"
  const NotConfigured: string := "not_configured"
  const NotConfiguredMessage: string := "Wallet API credentials not configured"
  const DatabaseErrorPrefix: string := "Database error: "
  const WalletErrorPrefix: string := "Wallet API error: "

  datatype ServiceHealth = ServiceHealth(status: string, error: Option<string>)

  /** What the probes saw: the database's answer to `SELECT 1` (None when
      it answered, the error's text otherwise), the configured wallet
      credentials, the wallet exchange the probe would make, and the text
      a wallet error displays as. */
  datatype Probes = Probes(
    database: Option<string>,
    issuerApiUrl: Option<string>,
    issuerAccessToken: Option<string>,
    wallet: WQ.Exchange<string>,
    describe: WQ.WalletQrError -> string)

  datatype HealthResponse = HealthResponse(status: string, database: ServiceHealth, walletApi: ServiceHealth)

  /** `check_database`. */
  function CheckDatabase(outcome: Option<string>): (h: ServiceHealth)
    ensures h.status == Healthy <==> outcome.None?
    ensures h.status == Healthy || h.status == Unhealthy
    ensures h.error.None? <==> h.status == Healthy
    ensures outcome.Some? ==> h.error == Some(DatabaseErrorPrefix + outcome.value)
  {
    match outcome
    case None => ServiceHealth(Healthy, None)
    case Some(e) => ServiceHealth(Unhealthy, Some(DatabaseErrorPrefix + e))
  }

  /** `check_wallet_api`: healthy exactly when the wallet health check passes. */
  function CheckWallet(x: WQ.Exchange<string>, describe: WQ.WalletQrError -> string): (h: ServiceHealth)
    ensures h.status == Healthy <==> x.Reply? && !IsServerError(x.status)
    ensures h.status == Healthy || h.status == Unhealthy
    ensures h.error.None? <==> h.status == Healthy
  {
    match WQ.CheckWalletHealth(x)
    case Ok(_) => ServiceHealth(Healthy, None)
    case Err(e) => ServiceHealth(Unhealthy, Some(WalletErrorPrefix + describe(e)))
  }

  predicate WalletConfigured(p: Probes) {
    p.issuerApiUrl.Some? && p.issuerAccessToken.Some?
  }

  /** `health_check`: the status code, and the body it is sent with. */
  function HealthCheck(p: Probes): (r: (int, HealthResponse))
    ensures r.0 == StatusOk || r.0 == StatusServiceUnavailable
    ensures r.0 == StatusOk <==>
      && p.database.None?
      && (!WalletConfigured(p) || (p.wallet.Reply? && !IsServerError(p.wallet.status)))
    ensures r.1.status == (if r.0 == StatusOk then Healthy else Unhealthy)
    ensures !WalletConfigured(p) ==> r.1.walletApi == ServiceHealth(NotConfigured, Some(NotConfiguredMessage))
    ensures r.1.database == CheckDatabase(p.database)
  {
    var db := CheckDatabase(p.database);
    var wallet := if WalletConfigured(p) then CheckWallet(p.wallet, p.describe)
                  else ServiceHealth(NotConfigured, Some(NotConfiguredMessage));
    var allHealthy := db.status == Healthy && (wallet.status == Healthy || wallet.status == NotConfigured);
    (if allHealthy then StatusOk else StatusServiceUnavailable,
     HealthResponse(if allHealthy then Healthy else Unhealthy, db, wallet))
  }

  /** Configuring the wallet can only turn a healthy answer unhealthy:
      whatever the wallet probe would see, an unconfigured wallet never
      stands between the service and a 200. */
  lemma ConfiguringWalletOnlyAddsFailures(p: Probes, url: string, token: string)
    ensures HealthCheck(p.(issuerApiUrl := Some(url), issuerAccessToken := Some(token))).0 == StatusOk
      ==> HealthCheck(p.(issuerApiUrl := None)).0 == StatusOk
    ensures HealthCheck(p.(issuerApiUrl := None)).1.walletApi.status == NotConfigured
  {
  }

  /** The wallet is probed only with both credentials; with one of them the
      endpoint behaves as if it had neither, and a wallet reply that is a
      client error still counts as up. */
  lemma HalfConfiguredIsUnconfigured(p: Probes)
    requires p.issuerApiUrl.Some? != p.issuerAccessToken.Some?
    ensures HealthCheck(p) == HealthCheck(p.(issuerApiUrl := None, issuerAccessToken := None))
    ensures HealthCheck(p).0 == StatusOk <==> p.database.None?
  {
  }

  lemma ClientErrorFromWalletIsHealthy(p: Probes)
    requires WalletConfigured(p) && p.database.None?
    requires p.wallet.Reply? && 400 <= p.wallet.status < 500
    ensures HealthCheck(p).0 == StatusOk && HealthCheck(p).1.walletApi.status == Healthy
  {
  }
}
