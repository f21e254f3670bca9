/** Who may create a stored share, of what size, for how long. */
module StoredPolicy {
  import opened Wrappers
  import opened StoredLayout
  import opened StoredShares
  import opened Pin

  const BROWSER_ANON_MAX_PLAINTEXT_BYTES: nat := 10 * 1024 * 1024
  const BROWSER_AUTH_MAX_PLAINTEXT_BYTES: nat := 1024 * 1024 * 1024
  const MAX_EXPIRES_SECONDS: nat := 30 * 24 * 60 * 60

  // ---------- expiry and storage policy ----------

  datatype Expiry = Expiry(mode: string, seconds: nat, deleteAfterComplete: bool)

  function ResolveExpiry(mode: Option<string>, seconds: Option<int>): Option<Expiry> {
    if mode.None? then
      if seconds.Some? && 60 <= seconds.value <= MAX_EXPIRES_SECONDS then Some(Expiry("legacy", seconds.value, false)) else None
    else if mode.value == "after_download" then Some(Expiry(mode.value, MAX_EXPIRES_SECONDS, true))
    else if mode.value == "quick" then Some(Expiry(mode.value, 7_200, true))
    else if mode.value == "1d" then Some(Expiry(mode.value, 86_400, false))
    else if mode.value == "2d" then Some(Expiry(mode.value, 172_800, false))
    else if mode.value == "1w" then Some(Expiry(mode.value, 604_800, false))
    else None
  }

  predicate ValidStoredPolicy(mode: string, expiryMode: string, maxDownloads: int, pin: PinMaterial, kind: string) {
    if mode == "none" then expiryMode == "quick" && maxDownloads == DEFAULT_MAX_DOWNLOADS && |pin.hash| > 0 && kind == "file"
    else expiryMode != "quick"
  }

  // ---------- accounts and sizes ----------

  datatype Session = Session(account: Account, eligible: bool, suspended: bool)

  datatype GateError = FileTooLarge | AuthRequired | AccountSuspended | Ineligible | OverQuota

  /** The quota shown to the user: what is left of the day's and the week's budget covers the request. */
  function EvaluateQuota(dayBytes: nat, weekBytes: nat, requested: int): bool {
    requested <= Max(0, DAILY_QUOTA_BYTES - dayBytes) && requested <= Max(0, WEEKLY_QUOTA_BYTES - weekBytes)
  }

  /** The account the share is charged to, if it may be created; `quotaOk` is asked for eligible accounts only. */
  function SendGate(size: int, session: Option<Session>, quotaOk: bool): Result<Option<Account>, GateError> {
    var needsLargeTier := size > BROWSER_ANON_MAX_PLAINTEXT_BYTES;
    if size > BROWSER_AUTH_MAX_PLAINTEXT_BYTES then Err(FileTooLarge)
    else if needsLargeTier && session.None? then Err(AuthRequired)
    else if session.Some? && session.value.suspended then Err(AccountSuspended)
    else if needsLargeTier && session.Some? && !session.value.eligible then Err(Ineligible)
    else if session.Some? && session.value.eligible && !quotaOk then Err(OverQuota)
    else Ok(if session.Some? then Some(session.value.account) else None)
  }

  function AccountOf(session: Option<Session>): Option<Account> {
    if session.Some? then Some(session.value.account) else None
  }

  /** The quota shown to an eligible account covers the request. */
  ghost predicate QuotaShown(rows: Rows, usage: UsageEvents, session: Option<Session>, size: int, shownAt: nat) {
    session.Some? && session.value.eligible ==>
      EvaluateQuota(QuotaTotal(rows, usage, session.value.account, StartOfUtcDay(shownAt)),
                    QuotaTotal(rows, usage, session.value.account, WeekWindowStart(shownAt)), size)
  }

  /** What the size tiers amount to, quota aside. */
  predicate MaySend(size: int, session: Option<Session>) {
    && size <= BROWSER_AUTH_MAX_PLAINTEXT_BYTES
    && (session.Some? ==> !session.value.suspended)
    && (size > BROWSER_ANON_MAX_PLAINTEXT_BYTES ==> session.Some? && session.value.eligible)
  }

  lemma GateIs(size: int, session: Option<Session>, quotaOk: bool)
    ensures SendGate(size, session, quotaOk).Ok?
            <==> MaySend(size, session) && (session.Some? && session.value.eligible ==> quotaOk)
    ensures SendGate(size, session, quotaOk).Ok? ==> SendGate(size, session, quotaOk) == Ok(AccountOf(session))
    ensures SendGate(size, session, quotaOk).Err? ==>
              SendGate(size, session, quotaOk).error
                == if size > BROWSER_AUTH_MAX_PLAINTEXT_BYTES then FileTooLarge
                   else if session.None? then AuthRequired
                   else if session.value.suspended then AccountSuspended
                   else if session.value.eligible then OverQuota
                   else Ineligible
  {
  }

  /** On the same data and reading, the shown quota and the guard differ exactly on an empty share of an account over quota. */
  lemma OnOneReading(rows: Rows, usage: UsageEvents, account: Account, size: nat, now: nat)
    ensures var day := QuotaTotal(rows, usage, account, StartOfUtcDay(now));
            var week := QuotaTotal(rows, usage, account, WeekWindowStart(now));
            QuotaAllows(rows, usage, Some(account), size, now)
            <==> EvaluateQuota(day, week, size) && (size == 0 ==> day <= DAILY_QUOTA_BYTES && week <= WEEKLY_QUOTA_BYTES)
  {
    hide Total;
  }

  // ---------- a request to create a share ----------

  datatype CreateRequest = CreateRequest(
    kind: string, name: string, layout: Layout, pin: PinMaterial, encryptionMode: Option<string>,
    expiryMode: Option<string>, expiresSeconds: Option<int>, maxDownloads: Option<int>)

  /** The layout asked for; only the mode "none" goes without the overhead of encryption. */
  function LayoutOf(request: CreateRequest): Layout {
    request.layout.(encrypted := request.encryptionMode != Some("none"))
  }

  function ModeOf(request: CreateRequest): string {
    if request.encryptionMode.Some? then request.encryptionMode.value else "end_to_end"
  }

  function ExpiryOf(request: CreateRequest): Option<Expiry> {
    ResolveExpiry(request.expiryMode, request.expiresSeconds)
  }

  function MaxDownloadsOf(request: CreateRequest): int {
    if request.maxDownloads.Some? then request.maxDownloads.value else DEFAULT_MAX_DOWNLOADS
  }

  /** Everything about the request itself is in order. */
  predicate ValidRequest(request: CreateRequest) {
    && (request.kind == "file" || request.kind == "folder") && request.name != "" && ValidPinMaterial(request.pin)
    && ValidStoredLayout(LayoutOf(request))
    && ExpiryOf(request).Some? && 1 <= MaxDownloadsOf(request) <= DEFAULT_MAX_DOWNLOADS
    && (ModeOf(request) == "end_to_end" || ModeOf(request) == "none")
    && ValidStoredPolicy(ModeOf(request), ExpiryOf(request).value.mode, MaxDownloadsOf(request), request.pin, request.kind)
  }

  function RowFor(request: CreateRequest, account: Option<Account>, uploadToken: Token, now: nat): Row
    requires ValidRequest(request)
  {
    var expiry := ExpiryOf(request).value;
    NewRow(LayoutOf(request), account, now, expiry.seconds * 1000, MaxDownloadsOf(request), expiry.deleteAfterComplete,
           uploadToken, request.pin)
  }

  // ---------- what a created share promises ----------

  const MINUTE_MS: nat := 60 * 1000
  const HOUR_MS: nat := 60 * MINUTE_MS

  /** The lifetime the request names, in milliseconds; a request without a mode gives its seconds. */
  function NamedLifetime(request: CreateRequest): Option<int> {
    if request.expiryMode.None? then
      if request.expiresSeconds.Some? then Some(request.expiresSeconds.value * 1000) else None
    else if request.expiryMode.value == "quick" then Some(2 * HOUR_MS)
    else if request.expiryMode.value == "1d" then Some(24 * HOUR_MS)
    else if request.expiryMode.value == "2d" then Some(2 * 24 * HOUR_MS)
    else if request.expiryMode.value == "1w" then Some(7 * 24 * HOUR_MS)
    else if request.expiryMode.value == "after_download" then Some(30 * 24 * HOUR_MS)
    else None
  }

  /** The share lives as long as its request names, a minute to thirty days, and is deleted after a download if so named. */
  lemma LifetimeIsAsNamed(request: CreateRequest)
    ensures ExpiryOf(request).Some?
            <==> NamedLifetime(request).Some? && MINUTE_MS <= NamedLifetime(request).value <= 30 * 24 * HOUR_MS
    ensures ExpiryOf(request).Some? ==>
              && ExpiryOf(request).value.seconds * 1000 == NamedLifetime(request).value
              && (ExpiryOf(request).value.deleteAfterComplete
                  <==> request.expiryMode == Some("quick") || request.expiryMode == Some("after_download"))
  {
  }

  /** A request for a quick link: a single file with a PIN and the usual limit. */
  predicate AsksQuick(request: CreateRequest) {
    && request.expiryMode == Some("quick") && request.encryptionMode == Some("none") && request.kind == "file"
    && request.pin.hash != "" && (request.maxDownloads == None || request.maxDownloads == Some(DEFAULT_MAX_DOWNLOADS))
  }

  /** Any other request: encrypted, and not called quick. */
  predicate AsksEncrypted(request: CreateRequest) {
    && request.expiryMode != Some("quick") && (request.encryptionMode == None || request.encryptionMode == Some("end_to_end"))
    && (request.kind == "file" || request.kind == "folder")
    && (request.maxDownloads.Some? ==> 1 <= request.maxDownloads.value <= DEFAULT_MAX_DOWNLOADS)
  }

  /** The valid requests are those for a quick link and the encrypted ones, each named, laid out and dated properly. */
  lemma ValidRequestIs(request: CreateRequest)
    ensures ValidRequest(request)
            <==> && (AsksQuick(request) || AsksEncrypted(request)) && request.name != "" && ValidPinMaterial(request.pin)
                 && ValidStoredLayout(request.layout.(encrypted := !AsksQuick(request)))
                 && NamedLifetime(request).Some? && MINUTE_MS <= NamedLifetime(request).value <= 30 * 24 * HOUR_MS
  {
    LifetimeIsAsNamed(request);
    hide ValidPinMaterial, ValidStoredLayout, NamedLifetime;
    assert LayoutOf(request).encrypted <==> request.encryptionMode != Some("none");
  }

  /** The new share is as requested: its whole row. */
  lemma NewShareIsAsRequested(request: CreateRequest, account: Option<Account>, uploadToken: Token, now: nat)
    requires ValidRequest(request)
    ensures var row := RowFor(request, account, uploadToken, now);
            && row.state == Uploading && row.createdAt == now && row.expiresAt == now + NamedLifetime(request).value
            && row.layout == request.layout.(encrypted := !AsksQuick(request))
            && row.uploadToken == Some(uploadToken) && row.downloadToken == None && row.downloadCount == 0
            && row.maxDownloads == (if request.maxDownloads.Some? then request.maxDownloads.value else DEFAULT_MAX_DOWNLOADS)
            && (row.deleteAfterComplete <==> AsksQuick(request) || request.expiryMode == Some("after_download"))
            && row.account == account && row.pin == request.pin
  {
    LifetimeIsAsNamed(request);
    hide ValidPinMaterial, ValidStoredLayout;
  }
}
