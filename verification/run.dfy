/** `send_automated_email`: one run from configuration to history. Loading the
    configuration, the password lookup, the page oracle, the mail delivery and the
    history write's I/O are inputs; the clock readings are passed in as strings. */
module Run {
  import opened Wrappers
  import opened Listing
  import opened Report
  import opened History
  import opened Fetch

  /** The `max_pages` the run passes to the fetch. */
  const RunMaxPages: int := 30

  /** How a run ends. `Crashed` is an uncaught exception: the one `filter_jobs` raises
      on a fetched listing whose address is not an object, or the one building the mail
      body raises on a match it cannot render. The last two carry the previous run time
      the mail reports. */
  datatype Outcome =
    | NoConfig
    | NoPassword
    | NoMatches
    | Crashed
    | SendFailed(lastRun: string)
    | Sent(lastRun: string)

  /** `os.environ.get('EMAIL_PASSWORD')` is set and not empty. */
  predicate HasPassword(password: Option<string>)
  {
    password.Some? && password.value != ""
  }

  /** `filter_jobs`, as written, raises on the fetched listings. */
  predicate FilterRaises(pages: Pages, conf: Config)
  {
    FilterAsWritten(Fetched(pages, RunMaxPages), conf).None?
  }

  /** The listings the run would mail when the filter does not raise. */
  function Matches(pages: Pages, conf: Config): seq<Job>
  {
    Filtered(Fetched(pages, RunMaxPages), conf)
  }

  /** Every gate before a history write passes: configuration, password, a filter that
      does not raise, at least one match, every match renderable, and the mail delivered. */
  predicate Delivers(conf: Option<Config>, password: Option<string>, pages: Pages, sendOk: bool)
  {
    conf.Some? && HasPassword(password) && !FilterRaises(pages, conf.value)
    && Matches(pages, conf.value) != []
    && AllRenderable(Matches(pages, conf.value)) && sendOk
  }

  /** `send_automated_email`. `conf` is None when the configuration is missing, malformed
      or empty; `sendOk` is the outcome of the SMTP exchange; `saveOk` that of the history
      file I/O; `now` and `reportTime` are the clock readings of the save and of the
      text report. Returns how the run ended and the history file afterwards. */
  method SendAutomatedEmail(conf: Option<Config>, password: Option<string>, pages: Pages,
                            sendOk: bool, history: Option<string>,
                            now: string, reportTime: string, saveOk: bool)
    returns (outcome: Outcome, history': Option<string>)
    ensures conf.None? <==> outcome == NoConfig
    ensures conf.Some? && !HasPassword(password) <==> outcome == NoPassword
    ensures (conf.Some? && HasPassword(password) && !FilterRaises(pages, conf.value)
             && Matches(pages, conf.value) == [])
            <==> outcome == NoMatches
    ensures (conf.Some? && HasPassword(password)
             && (FilterRaises(pages, conf.value)
                 || (Matches(pages, conf.value) != [] && !AllRenderable(Matches(pages, conf.value)))))
            <==> outcome == Crashed
    ensures outcome.SendFailed? || outcome.Sent? ==> outcome.lastRun == LoadLastRunTime(history)
    ensures Delivers(conf, password, pages, sendOk) <==> outcome.Sent?
    ensures outcome.Sent? && saveOk ==>
            history' == Some(SavedText(history, now, reportTime, Matches(pages, conf.value)))
    ensures !(outcome.Sent? && saveOk) ==> history' == history
    ensures history' != history <==> Delivers(conf, password, pages, sendOk) && saveOk
  {
    history' := history;
    if conf.None? {
      return NoConfig, history';
    }
    if !HasPassword(password) {
      return NoPassword, history';
    }
    var allJobs, _ := FetchAllJobs(pages, RunMaxPages);
    var raw := FilterAsWritten(allJobs, conf.value);
    if raw.None? {
      return Crashed, history';
    }
    FilterAsWrittenAgrees(allJobs, conf.value);
    var filtered := raw.value;
    if filtered == [] {
      return NoMatches, history';
    }
    var lastRun := LoadLastRunTime(history);
    if !AllRenderable(filtered) {
      return Crashed, history';
    }
    if !sendOk {
      return SendFailed(lastRun), history';
    }
    history' := SaveLastRunTime(history, now, reportTime, filtered, saveOk);
    SaveChangesFile(history, now, reportTime, filtered);
    outcome := Sent(lastRun);
  }
}
