/**
 * Processing the configured accounts one after another with one shared
 * exporter: for each account the exporter is pointed at the owner's download
 * directory, the previous tab is dropped, and login, date range and export
 * run in sequence, stopping at the first step that fails. One account's
 * failure never stops the others; the run ends with a success/failure tally.
 */
module AccountRunner {
  import opened Options
  import Naming
  import Calendar
  import DateRange
  import Downloads

  /** The settings the core reads: the base download directory and the range's start date. */
  datatype Settings = Settings(downloadPath: string, startDate: string)

  /** How logging in went: no tab could be opened, or a tab opened and the login did or did not succeed. */
  datatype LoginOutcome = NoTab | TabOpened(loggedIn: bool)

  /**
   * What the order-list page does when the exports are triggered: whether
   * both detail exports and the list export could be started, and the
   * export-job table it then shows.
   */
  datatype ExportPage = ExportPage(detailsExported: bool, listExported: bool, listing: seq<Downloads.Row>)

  /**
   * One configured account, with the oracle outcomes of its browser steps
   * and `today`, the date the clock shows when its range is set (it is read
   * afresh for every account, so a run that crosses midnight requests
   * different end dates for earlier and later accounts).
   */
  datatype Account = Account(owner: string, login: LoginOutcome, today: Calendar.Date,
                             rangePage: DateRange.Page, exportPage: ExportPage)

  /**
   * The shared exporter: current owner and download directory, the tab in
   * use (tabs are numbered in the order they are opened), and the local
   * filesystem.
   */
  datatype Session = Session(owner: string, userDir: string, tab: Option<nat>, tabsOpened: nat, fs: Downloads.FileSystem)

  datatype Step = Login | SetRange | Export

  /** The account's answer, the steps invoked, and the exporter afterwards. */
  datatype AccountRun = AccountRun(ok: bool, steps: seq<Step>, session: Session)

  datatype ExportRun = ExportRun(ok: bool, fs: Downloads.FileSystem)

  /** The final summary: successes, failures, and each account's answer in order. */
  datatype Tally = Tally(successes: nat, failures: nat, outcomes: seq<bool>)

  /**
   * Retargets the shared exporter at a new owner: every file it downloads
   * from now on lies in that owner's directory and carries that owner's
   * name, while the open tab and the files on disk stay as they were.
   */
  function UpdateUser(session: Session, downloadPath: string, owner: string): (s: Session)
    ensures forall raw :: Naming.UnderDir(Naming.UserDir(downloadPath, owner), Naming.TargetFile(s.userDir, raw, s.owner))
    ensures forall raw :: Naming.BaseOfTarget(Naming.UserDir(downloadPath, owner), owner, Naming.TargetFile(s.userDir, raw, s.owner))
                          == Naming.BaseName(raw)
    ensures forall raw :: var p := Naming.TargetFile(s.userDir, raw, s.owner);
                          && |p| >= |owner| + |Naming.Extension| + 1
                          && p[|p| - |owner| - |Naming.Extension| - 1..] == [Naming.OwnerSeparator] + owner + Naming.Extension
    ensures s.tab == session.tab && s.tabsOpened == session.tabsOpened && s.fs == session.fs
  {
    var dir := Naming.UserDir(downloadPath, owner);
    assert forall raw :: Naming.BaseOfTarget(dir, owner, Naming.TargetFile(dir, raw, owner)) == Naming.BaseName(raw) by {
      forall raw ensures Naming.BaseOfTarget(dir, owner, Naming.TargetFile(dir, raw, owner)) == Naming.BaseName(raw) {
        Naming.BaseOfTargetRoundTrip(dir, raw, owner);
      }
    }
    session.(owner := owner, userDir := dir)
  }

  /**
   * Triggering the exports and handling the downloads; any exception in
   * them, including one from the download phase, turns into `false`.
   */
  function ExportData(session: Session, page: ExportPage): (r: ExportRun)
    ensures r.ok <==> page.detailsExported && page.listExported && Downloads.Completes(page.listing)
    ensures |page.listing| <= Downloads.SecondDownloadRow ==> !r.ok
    ensures !(page.detailsExported && page.listExported) ==> r.fs == session.fs
    ensures forall p :: !Naming.UnderDir(session.userDir, p) ==> (p in r.fs <==> p in session.fs)
  {
    if !page.detailsExported || !page.listExported then ExportRun(false, session.fs)
    else
      var run := Downloads.HandleDownloads(session.fs, page.listing, session.userDir, session.owner);
      ExportRun(run.Done?, run.state.fs)
  }

  /** When processing an account answers `true`; it does not depend on the filesystem or earlier accounts. */
  predicate Succeeds(account: Account, settings: Settings)
    requires Calendar.Valid(account.today)
  {
    && account.login == TabOpened(true)
    && DateRange.Accepts(settings.startDate, account.today, account.rangePage)
    && account.exportPage.detailsExported
    && account.exportPage.listExported
    && Downloads.Completes(account.exportPage.listing)
  }

  /**
   * One account: drop the previous tab, then login, date range and export,
   * each only if the one before answered `true`.
   */
  function ProcessAccount(session: Session, account: Account, settings: Settings): (r: AccountRun)
    requires Calendar.Valid(account.today)
    ensures r.ok <==> Succeeds(account, settings)
    ensures 1 <= |r.steps| && r.steps <= [Login, SetRange, Export]
    ensures SetRange in r.steps <==> account.login == TabOpened(true)
    ensures Export in r.steps <==> account.login == TabOpened(true)
                                   && DateRange.Accepts(settings.startDate, account.today, account.rangePage)
    ensures account.login.NoTab? ==> r.session.tab.None?
    ensures account.login.TabOpened? ==> r.session.tab == Some(session.tabsOpened)
    ensures session.tab.Some? && session.tab.value < session.tabsOpened ==> r.session.tab != session.tab
    ensures r.session.tab.Some? ==> r.session.tab.value < r.session.tabsOpened
    ensures r.session.owner == session.owner && r.session.userDir == session.userDir
    ensures forall p :: !Naming.UnderDir(session.userDir, p) ==> (p in r.session.fs <==> p in session.fs)
  {
    var cleared := session.(tab := None);
    var s := if account.login.TabOpened?
             then cleared.(tab := Some(cleared.tabsOpened), tabsOpened := cleared.tabsOpened + 1)
             else cleared;
    if account.login != TabOpened(true) then AccountRun(false, [Login], s)
    else if DateRange.SetDateRange(settings.startDate, account.today, account.rangePage).Failed? then
      AccountRun(false, [Login, SetRange], s)
    else
      var e := ExportData(s, account.exportPage);
      AccountRun(e.ok, [Login, SetRange, Export], s.(fs := e.fs))
  }

  function CountTrue(bs: seq<bool>): (n: nat)
    ensures n <= |bs|
  {
    if bs == [] then 0 else CountTrue(bs[..|bs| - 1]) + (if bs[|bs| - 1] then 1 else 0)
  }

  /** `p` lies in the download directory of one of `accounts`. */
  predicate OwnedBySome(accounts: seq<Account>, downloadPath: string, p: string) {
    exists i :: 0 <= i < |accounts| && Naming.UnderDir(Naming.UserDir(downloadPath, accounts[i].owner), p)
  }

  /**
   * If every change so far lies in the directory of one of the first `i`
   * accounts, and account `i` changes only its own directory, every change
   * lies in the directory of one of the first `i + 1` accounts.
   */
  lemma ChangesStayOwned(accounts: seq<Account>, downloadPath: string, i: nat,
                         fs0: Downloads.FileSystem, before: Downloads.FileSystem, after: Downloads.FileSystem)
    requires i < |accounts|
    requires forall p :: (p in before) != (p in fs0) ==> OwnedBySome(accounts[..i], downloadPath, p)
    requires forall p :: !Naming.UnderDir(Naming.UserDir(downloadPath, accounts[i].owner), p) ==> (p in after <==> p in before)
    ensures forall p :: (p in after) != (p in fs0) ==> OwnedBySome(accounts[..i + 1], downloadPath, p)
  {
  }

  /**
   * One pass of the account loop: point the exporter at the account's
   * directory, then process the account. Only that directory changes.
   */
  method ServeAccount(session: Session, account: Account, settings: Settings)
    returns (ok: bool, next: Session)
    requires Calendar.Valid(account.today)
    ensures ok <==> Succeeds(account, settings)
    ensures forall p :: !Naming.UnderDir(Naming.UserDir(settings.downloadPath, account.owner), p)
                        ==> (p in next.fs <==> p in session.fs)
  {
    var retargeted := UpdateUser(session, settings.downloadPath, account.owner);
    var run := ProcessAccount(retargeted, account, settings);
    ok, next := run.ok, run.session;
  }

  /**
   * The account loop: every account is processed whatever happened to the
   * ones before it, and the tally counts the `true` answers. With no
   * accounts nothing runs and no tally is produced. Every file created or
   * removed lies in some account's own directory.
   */
  method RunAccounts(accounts: seq<Account>, settings: Settings, fs0: Downloads.FileSystem)
    returns (tally: Option<Tally>, fs: Downloads.FileSystem)
    requires forall i :: 0 <= i < |accounts| ==> Calendar.Valid(accounts[i].today)
    ensures tally.None? <==> accounts == []
    ensures tally.None? ==> fs == fs0
    ensures tally.Some? ==> |tally.value.outcomes| == |accounts|
    ensures tally.Some? ==> forall i :: 0 <= i < |accounts| ==> (tally.value.outcomes[i] <==> Succeeds(accounts[i], settings))
    ensures tally.Some? ==> tally.value.successes == CountTrue(tally.value.outcomes) <= |accounts|
    ensures tally.Some? ==> tally.value.failures == |accounts| - tally.value.successes
    ensures forall p :: (p in fs) != (p in fs0) ==> OwnedBySome(accounts, settings.downloadPath, p)
  {
    if accounts == [] {
      return None, fs0;
    }
    var first := accounts[0].owner;
    var session := Session(first, Naming.UserDir(settings.downloadPath, first), None, 0, fs0);
    var successCount := 0;
    var outcomes: seq<bool> := [];
    for i := 0 to |accounts|
      invariant |outcomes| == i
      invariant forall j :: 0 <= j < i ==> (outcomes[j] <==> Succeeds(accounts[j], settings))
      invariant successCount == CountTrue(outcomes)
      invariant forall p :: (p in session.fs) != (p in fs0) ==> OwnedBySome(accounts[..i], settings.downloadPath, p)
    {
      var before := session.fs;
      var ok;
      ok, session := ServeAccount(session, accounts[i], settings);
      ChangesStayOwned(accounts, settings.downloadPath, i, fs0, before, session.fs);
      if ok {
        successCount := successCount + 1;
      }
      assert (outcomes + [ok])[..i] == outcomes;
      outcomes := outcomes + [ok];
    }
    assert accounts[..|accounts|] == accounts;
    tally := Some(Tally(successCount, |accounts| - successCount, outcomes));
    fs := session.fs;
  }
}
