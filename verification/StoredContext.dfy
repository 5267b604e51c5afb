/** The per-request stored context, the IIS response it may replace, and the two
    operations every phase shares: applying an intervention and finishing the
    transaction. */
module StoredContext {
  import opened Common
  import opened Engine

  datatype BodyReadState = BrsIdle | BrsReadPending | BrsDone

  /** One replaced response: what the client is sent, and the status reported to
      the engine. */
  datatype Replacement = Replacement(sent: int, location: Option<string>, reported: int)

  /** The abstract value of a stored context together with its transaction. */
  datatype Ctx = Ctx(
    live: bool,
    trace: Trace,
    headersFed: bool,
    bodyBlock: bool,
    bodyEvaluated: bool,
    replacements: seq<Replacement>)

  /** The value of a context whose transaction has just been installed. */
  function Installed(bodyBlock: bool): Ctx {
    Ctx(true, [], false, bodyBlock, false, [])
  }

  function ToUshort(status: int): int {
    status % 0x1_0000
  }

  /** The response a disruptive intervention is answered with. */
  function ReplacementFor(it: Intervention): Replacement {
    if it.url != "" then
      if 301 <= it.status <= 308 && it.status != 302
      then Replacement(ToUshort(it.status), Some(it.url), it.status)
      else Replacement(302, Some(it.url), 302)
    else
      var status := if it.status <= 0 then 403 else it.status;
      Replacement(ToUshort(status), None, status)
  }

  function Log(c: Ctx, call: EngineCall): Ctx {
    c.(trace := c.trace + [call])
  }

  /** FinishRequest. */
  function Finished(c: Ctx): Ctx {
    if c.live then Log(c, ProcessLogging).(live := false) else c
  }

  /** Cleaning a context up and then destroying it logs no more than once. */
  lemma FinishedTwice(c: Ctx)
    ensures Finished(Finished(c)) == Finished(c) && !Finished(c).live
  {
  }

  /** The intervention ApplyIntervention acts on, if it acts at all. */
  function Honoured(rules: Rules, c: Ctx, canBlock: bool): Option<Intervention> {
    if c.live && canBlock && rules.intervention(c.trace).Some? && rules.intervention(c.trace).value.disruptive
    then rules.intervention(c.trace) else None
  }

  /** The response has been replaced and its status reported, but the transaction is
      not finished yet. */
  function Replaced(c: Ctx, r: Replacement): Ctx {
    Log(Log(c, TakeIntervention), UpdateStatusCode(r.reported)).(replacements := c.replacements + [r])
  }

  /** The context after ApplyIntervention. */
  function Intervened(rules: Rules, c: Ctx, canBlock: bool): Ctx {
    if !c.live then c
    else
      match Honoured(rules, c, canBlock)
      case None => Log(c, TakeIntervention)
      case Some(it) => Finished(Replaced(c, ReplacementFor(it)))
  }

  /** How ApplyIntervention ends. It throws if updateStatusCode does. */
  datatype Outcome = LetPass | Blocked | Threw

  /** responseBodyBlockingEnabled. */
  predicate BlockingEnabled(rules: Rules, c: Ctx) {
    && c.live
    && c.bodyBlock
    && rules.responseBodyAccess
    && ModeAfter(rules, c.trace) == EngineOn
  }

  /** The status the engine is told equals the status sent, exactly when the
      engine asked for a redirect or for a status that fits a USHORT. */
  lemma ReportedStatusIsSent(it: Intervention)
    ensures ReplacementFor(it).sent == ReplacementFor(it).reported <==>
              it.url != "" || it.status < 0x1_0000
    ensures 0 <= ReplacementFor(it).sent < 0x1_0000
  {
  }

  // ---- The objects ----

  class HttpContext {
    var status: int
    var location: Option<string>
    var contentLength: Option<string>
    var handled: bool
    ghost var replacements: seq<Replacement>

    constructor ()
      ensures replacements == [] && !handled
    {
      status := 200;
      location := None;
      contentLength := None;
      handled := false;
      replacements := [];
    }

    method Clear()
      modifies this
      ensures location == None && contentLength == None
      ensures handled == old(handled) && replacements == old(replacements)
    {
      status, location, contentLength := 200, None, None;
    }

    method Redirect(url: string)
      modifies this`status, this`location
      ensures status == 302 && location == Some(url)
    {
      status, location := 302, Some(url);
    }

    method SetStatus(code: int)
      modifies this`status
      ensures status == ToUshort(code)
    {
      status := ToUshort(code);
    }
  }

  class RequestContext {
    var tx: Transaction?
    var rules: Option<Rules>
    var headersFed: bool
    var bodyBlock: bool
    var bodyEvaluated: bool
    var hasBody: bool
    var declared: nat
    var body: Bytes
    var readBuf: array<Byte>
    var bodyReadState: BodyReadState
    ghost const installed: Transaction

    constructor (transaction: Transaction, block: bool)
      ensures Valid() && tx == installed == transaction
      ensures !headersFed && bodyBlock == block && !bodyEvaluated
      ensures body == [] && bodyReadState == BrsIdle && !hasBody && declared == 0
      ensures fresh(readBuf) && readBuf.Length == 0
    {
      tx, rules := transaction, Some(transaction.rules);
      headersFed, bodyBlock, bodyEvaluated := false, block, false;
      hasBody, declared, body, bodyReadState := false, 0, [], BrsIdle;
      readBuf := new Byte[0];
      installed := transaction;
    }

    /** The transaction pointer is the installed transaction or null, and the
        rules are held exactly as long as the transaction. */
    ghost predicate Valid()
      reads this
    {
      && (tx == null || tx == installed)
      && rules == (if tx == null then None else Some(installed.rules))
    }

    ghost function View(http: HttpContext): Ctx
      reads this, installed, http
    {
      Ctx(tx != null, installed.trace, headersFed, bodyBlock, bodyEvaluated, http.replacements)
    }

    /** processLogging may throw: the transaction is then leaked instead of deleted,
        but the context lets go of it all the same. */
    method FinishRequest(ghost http: HttpContext) returns (leaked: bool)
      requires Valid()
      modifies this`tx, this`rules, installed
      ensures Valid() && tx == null
      ensures View(http) == Finished(old(View(http)))
      ensures leaked ==> old(tx) != null
    {
      leaked := false;
      if tx != null {
        tx.Call(ProcessLogging);
        leaked := *;
        tx := null;
      }
      rules := None;
    }

    predicate ResponseBodyBlockingEnabled()
      requires Valid()
      reads this, tx
    {
      if tx == null || rules.None? then false
      else bodyBlock && rules.value.responseBodyAccess && tx.RuleEngineState() == EngineOn
    }
  }

  /** ApplyIntervention: consume the pending intervention and, when it may block,
      replace the response and finish the transaction -- unless reporting the status
      throws, which leaves the response replaced and the transaction live. */
  method ApplyIntervention(rsc: RequestContext, http: HttpContext, canBlock: bool, reportThrows: bool)
    returns (outcome: Outcome)
    requires rsc.Valid()
    modifies rsc`tx, rsc`rules, rsc.installed, http
    ensures rsc.Valid()
    ensures var rules, before := rsc.installed.rules, old(rsc.View(http));
            var it := Honoured(rules, before, canBlock);
            && outcome == (if it.None? then LetPass else if reportThrows then Threw else Blocked)
            && rsc.View(http) == (if outcome == Threw then Replaced(before, ReplacementFor(it.value))
                                  else Intervened(rules, before, canBlock))
            && (outcome != LetPass ==>
                  http.replacements
                  == old(http.replacements)
                     + [Replacement(http.status, http.location, ReplacementFor(it.value).reported)])
    ensures outcome != LetPass ==> http.contentLength == None
    ensures http.handled == (old(http.handled) || outcome == Blocked)
    ensures if outcome == Blocked then rsc.tx == null else rsc.tx == old(rsc.tx)
    ensures outcome == LetPass ==> unchanged(http)
  {
    if rsc.tx == null {
      return LetPass;
    }
    var tx := rsc.tx;
    var it := tx.Intervene();
    if it.None? || !it.value.disruptive || !canBlock {
      return LetPass;
    }
    var status := it.value.status;
    http.Clear();
    var finalStatus := status;
    if it.value.url != "" {
      http.Redirect(it.value.url);
      if status >= 301 && status <= 308 && status != 302 {
        http.SetStatus(status);
      } else {
        finalStatus := 302;
      }
    } else {
      if status <= 0 {
        status := 403;
      }
      http.SetStatus(status);
      finalStatus := status;
    }
    tx.Call(UpdateStatusCode(finalStatus));
    http.replacements := http.replacements + [Replacement(http.status, http.location, finalStatus)];
    if reportThrows {
      return Threw;
    }
    http.handled := true;
    var _ := rsc.FinishRequest(http);
    return Blocked;
  }
}
