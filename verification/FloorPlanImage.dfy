/**
 * The floor plan image entity: cache, failure flag and background retry, as atomic
 * steps between awaits, in every interleaving.
 */
module FloorPlanImage {
  import opened Text

  type Url = string
  type Bytes = seq<nat>
  type TaskId = nat

  datatype Task =
    | Request(url: Url)         // async_image awaiting its fetch
    | RetryScheduled(url: Url)  // the retry task, not started yet
    | RetryFetch(url: Url)      // the retry task awaiting its fetch

  /** How a finished request answered. */
  datatype Answer = Nothing | Image(bytes: Bytes)

  datatype State = State(
    url: Option<Url>,            // the plan's image URL in the coordinator's data
    cachedUrl: Option<Url>,
    cachedBytes: Option<Bytes>,
    failed: bool,
    retry: Option<TaskId>,
    tasks: map<TaskId, Task>,
    // For the statements below: what was ever fetched successfully, the URL current
    // when each request began, and the answers given.
    fetched: set<(Url, Bytes)>,
    began: map<TaskId, Option<Url>>,
    answers: map<TaskId, Answer>
  )

  const INITIAL := State(None, None, None, false, None, map[], {}, map[], map[])

  datatype FetchResult = Failure | Success(bytes: Bytes)

  datatype Step =
    | Publish(url: Option<Url>)             // the coordinator's data changes
    | HandleUpdate(t: TaskId)               // its listener runs; t names a retry it may create
    | AskImage(t: TaskId)                   // async_image up to its first await
    | RetryBegins(t: TaskId)
    | FetchReturns(t: TaskId, result: FetchResult)
    | CancelRequest(t: TaskId)
    | RemoveEntity

  predicate IsRetry(task: Task) {
    task.RetryScheduled? || task.RetryFetch?
  }

  predicate Enabled(st: State, step: Step) {
    match step
    case Publish(url) => url != Some("")
    case HandleUpdate(t) => t !in st.tasks && t !in st.began
    case AskImage(t) => t !in st.tasks && t !in st.began && st.retry != Some(t)
    case RetryBegins(t) => t in st.tasks && st.tasks[t].RetryScheduled?
    case FetchReturns(t, _) => t in st.tasks && !st.tasks[t].RetryScheduled?
    case CancelRequest(t) => t in st.tasks && st.tasks[t].Request?
    case RemoveEntity => true
  }

  function CancelRetry(st: State): State {
    if st.retry.Some? then st.(retry := None, tasks := st.tasks - {st.retry.value}) else st
  }

  function MarkFailed(st: State, url: Url): State {
    st.(cachedUrl := Some(url), cachedBytes := None, failed := true)
  }

  function Answered(st: State, t: TaskId, answer: Answer): State {
    st.(answers := st.answers[t := answer], tasks := st.tasks - {t})
  }

  /** `valid` tells whether a URL names a floor plan asset. */
  function After(st: State, step: Step, valid: Url -> bool): State
    requires Enabled(st, step)
  {
    match step
    case Publish(url) => st.(url := url)
    case HandleUpdate(t) =>
      if st.url != st.cachedUrl then CancelRetry(st).(cachedUrl := None, cachedBytes := None, failed := false)
      else if st.url.Some? && st.failed && !(st.retry.Some? && st.retry.value in st.tasks)
      then st.(retry := Some(t), tasks := st.tasks[t := RetryScheduled(st.url.value)])
      else st
    case AskImage(t) =>
      var asked := st.(began := st.began[t := st.url]);
      if st.url.None? then Answered(asked, t, Nothing)
      else if st.url == st.cachedUrl && st.cachedBytes.Some? then Answered(asked, t, Image(st.cachedBytes.value))
      else if st.failed && st.url == st.cachedUrl then Answered(asked, t, Nothing)
      else if !valid(st.url.value) then Answered(MarkFailed(asked, st.url.value), t, Nothing)
      else asked.(tasks := st.tasks[t := Request(st.url.value)])
    case RetryBegins(t) =>
      var url := st.tasks[t].url;
      if valid(url) then st.(tasks := st.tasks[t := RetryFetch(url)])
      else MarkFailed(st, url).(tasks := st.tasks - {t})
    case FetchReturns(t, result) =>
      var url := st.tasks[t].url;
      var fetched := match result
        case Failure => MarkFailed(st, url)
        case Success(bytes) =>
          st.(cachedUrl := Some(url), cachedBytes := Some(bytes), failed := false, fetched := st.fetched + {(url, bytes)});
      if st.tasks[t].Request?
      then Answered(fetched, t, if result.Success? then Image(result.bytes) else Nothing)
      else fetched.(tasks := st.tasks - {t})
    case CancelRequest(t) => st.(tasks := st.tasks - {t})
    case RemoveEntity => CancelRetry(st)
  }

  // ---------- The invariant ----------

  ghost predicate CacheHonest(st: State) {
    && (st.cachedBytes.Some? ==> st.cachedUrl.Some? && (st.cachedUrl.value, st.cachedBytes.value) in st.fetched)
    && (st.failed ==> st.cachedBytes.None? && st.cachedUrl.Some?)
  }

  ghost predicate OneRetry(st: State) {
    forall t :: t in st.tasks && IsRetry(st.tasks[t]) ==> st.retry == Some(t)
  }

  /** Every request in flight fetches the URL current when it began. */
  ghost predicate RequestsHonest(st: State) {
    && (forall t :: t in st.tasks ==> TaskHonest(st.tasks[t], t, st.began))
    && (st.retry.Some? ==> st.retry.value !in st.began)
  }

  ghost predicate TaskHonest(task: Task, t: TaskId, began: map<TaskId, Option<Url>>) {
    if task.Request? then t in began && began[t] == Some(task.url) else t !in began
  }

  /** Every image answer was fetched from the URL current when its request began. */
  ghost predicate AnswersHonest(st: State) {
    forall t :: t in st.answers ==> t in st.began && AnswerHonest(st.answers[t], st.began[t], st.fetched)
  }

  ghost predicate AnswerHonest(answer: Answer, url: Option<Url>, fetched: set<(Url, Bytes)>) {
    answer.Image? ==> url.Some? && (url.value, answer.bytes) in fetched
  }

  ghost predicate Inv(st: State) {
    CacheHonest(st) && OneRetry(st) && RequestsHonest(st) && AnswersHonest(st)
  }

  lemma StepKeepsInv(st: State, step: Step, valid: Url -> bool)
    requires Inv(st) && Enabled(st, step)
    ensures Inv(After(st, step, valid))
    ensures st.fetched <= After(st, step, valid).fetched
  {
    CacheKept(st, step, valid);
    RetryKept(st, step, valid);
    RequestsKept(st, step, valid);
    AnswersKept(st, step, valid);
  }

  lemma CacheKept(st: State, step: Step, valid: Url -> bool)
    requires CacheHonest(st) && Enabled(st, step)
    ensures CacheHonest(After(st, step, valid))
  {
  }

  lemma RetryKept(st: State, step: Step, valid: Url -> bool)
    requires OneRetry(st) && Enabled(st, step)
    ensures OneRetry(After(st, step, valid))
  {
    hide After, IsRetry;
    var next := After(st, step, valid);
    forall t | t in next.tasks && IsRetry(next.tasks[t]) ensures next.retry == Some(t) {
      RetryKnown(st, step, valid, t);
    }
  }

  lemma RetryKnown(st: State, step: Step, valid: Url -> bool, t: TaskId)
    requires OneRetry(st) && Enabled(st, step)
    requires var next := After(st, step, valid); t in next.tasks && IsRetry(next.tasks[t])
    ensures After(st, step, valid).retry == Some(t)
  {
    hide After, OneRetry, Enabled, IsRetry;
    if step.HandleUpdate? {
      RetryAfterUpdate(st, step, valid, t);
    } else {
      RetryAfterOther(st, step, valid, t);
    }
  }

  lemma RetryAfterUpdate(st: State, step: Step, valid: Url -> bool, t: TaskId)
    requires OneRetry(st) && Enabled(st, step) && step.HandleUpdate?
    requires var next := After(st, step, valid); t in next.tasks && IsRetry(next.tasks[t])
    ensures After(st, step, valid).retry == Some(t)
  {
  }

  /** Only a coordinator update creates a retry task. */
  lemma RetryAfterOther(st: State, step: Step, valid: Url -> bool, t: TaskId)
    requires OneRetry(st) && Enabled(st, step) && !step.HandleUpdate?
    requires var next := After(st, step, valid); t in next.tasks && IsRetry(next.tasks[t])
    ensures t in st.tasks && IsRetry(st.tasks[t]) && After(st, step, valid).retry == Some(t)
  {
  }

  lemma TaskKept(st: State, step: Step, valid: Url -> bool, t: TaskId)
    requires Enabled(st, step) && t in After(st, step, valid).tasks
    requires t in st.tasks ==> TaskHonest(st.tasks[t], t, st.began)
    ensures var next := After(st, step, valid); TaskHonest(next.tasks[t], t, next.began)
  {
  }

  lemma RetryNotAsked(st: State, step: Step, valid: Url -> bool)
    requires Enabled(st, step) && (st.retry.Some? ==> st.retry.value !in st.began)
    ensures var next := After(st, step, valid); next.retry.Some? ==> next.retry.value !in next.began
  {
  }

  lemma RequestsKept(st: State, step: Step, valid: Url -> bool)
    requires RequestsHonest(st) && Enabled(st, step)
    ensures RequestsHonest(After(st, step, valid))
  {
    hide After, TaskHonest;
    RetryNotAsked(st, step, valid);
    forall t | t in After(st, step, valid).tasks {
      TaskKept(st, step, valid, t);
    }
  }

  /** What one step can add to the answers. */
  lemma NewAnswer(st: State, step: Step, valid: Url -> bool, t: TaskId)
    requires CacheHonest(st) && RequestsHonest(st) && Enabled(st, step)
    requires t in After(st, step, valid).answers && (step.AskImage? || step.FetchReturns?) && step.t == t
    requires t in st.answers ==> t in st.began && AnswerHonest(st.answers[t], st.began[t], st.fetched)
    ensures var next := After(st, step, valid);
      t in next.began && AnswerHonest(next.answers[t], next.began[t], next.fetched)
  {
    if step.FetchReturns? {
      assert TaskHonest(st.tasks[t], t, st.began);
    }
  }

  lemma OldAnswer(st: State, step: Step, valid: Url -> bool, t: TaskId)
    requires Enabled(st, step) && t in After(st, step, valid).answers
    requires !((step.AskImage? || step.FetchReturns?) && step.t == t)
    ensures var next := After(st, step, valid);
      && t in st.answers && next.answers[t] == st.answers[t] && st.fetched <= next.fetched
      && (t in st.began ==> t in next.began && next.began[t] == st.began[t])
  {
  }

  lemma AnswersKept(st: State, step: Step, valid: Url -> bool)
    requires CacheHonest(st) && RequestsHonest(st) && AnswersHonest(st) && Enabled(st, step)
    ensures AnswersHonest(After(st, step, valid))
  {
    hide After, RequestsHonest, CacheHonest;
    var next := After(st, step, valid);
    forall t | t in next.answers ensures t in next.began && AnswerHonest(next.answers[t], next.began[t], next.fetched) {
      if (step.AskImage? || step.FetchReturns?) && step.t == t {
        NewAnswer(st, step, valid, t);
      } else {
        OldAnswer(st, step, valid, t);
      }
    }
  }

  // ---------- Executions ----------

  ghost predicate Next(st: State, st': State, valid: Url -> bool) {
    exists step :: Enabled(st, step) && st' == After(st, step, valid)
  }

  /** Any interleaving of updates, requests, retries and late completions. */
  ghost predicate Execution(states: seq<State>, valid: Url -> bool) {
    && 0 < |states| && states[0] == INITIAL
    && forall i :: 0 <= i < |states| - 1 ==> Next(states[i], states[i + 1], valid)
  }

  /** What is cached was fetched from `cachedUrl`, a failure means nothing is cached, one retry runs. */
  lemma {:induction false} AlwaysHonest(states: seq<State>, valid: Url -> bool, i: nat)
    requires Execution(states, valid) && i < |states|
    ensures Inv(states[i])
  {
    if i > 0 {
      AlwaysHonest(states, valid, i - 1);
      assert Next(states[i - 1], states[i], valid);
      var step :| Enabled(states[i - 1], step) && states[i] == After(states[i - 1], step, valid);
      StepKeepsInv(states[i - 1], step, valid);
    }
  }

  // ---------- Progress ----------

  /** The current URL's image is cached. */
  ghost predicate Fresh(st: State, bytes: Bytes) {
    st.url.Some? && st.cachedUrl == st.url && st.cachedBytes == Some(bytes)
  }

  /** A cached image of the current URL is answered at once, without another fetch. */
  lemma FreshServes(st: State, t: TaskId, valid: Url -> bool, bytes: Bytes)
    requires Fresh(st, bytes) && Enabled(st, AskImage(t))
    ensures var next := After(st, AskImage(t), valid);
      next.answers == st.answers[t := Image(bytes)] && next.tasks == st.tasks && Fresh(next, bytes) && next.failed == st.failed
  {
  }

  /** It stays so until the data names another URL or a fetch that was already under way comes in. */
  lemma FreshStays(st: State, step: Step, valid: Url -> bool, bytes: Bytes)
    requires Inv(st) && Fresh(st, bytes) && Enabled(st, step)
    requires !(step.Publish? && step.url != st.url) && !step.RetryBegins? && !step.FetchReturns?
    ensures Fresh(After(st, step, valid), bytes)
  {
  }

  /** Without an image and without a failure of the current URL, a request fetches it if it names an asset and fails it otherwise. */
  lemma AskFetches(st: State, t: TaskId, valid: Url -> bool)
    requires Inv(st) && Enabled(st, AskImage(t)) && st.url.Some?
    requires st.cachedUrl != st.url || (st.cachedBytes.None? && !st.failed)
    ensures var next := After(st, AskImage(t), valid);
      if valid(st.url.value)
      then next.tasks == st.tasks[t := Request(st.url.value)] && next.answers == st.answers && next.failed == st.failed
      else next.tasks == st.tasks && next.answers == st.answers[t := Nothing] && next.failed && next.cachedUrl == st.url
  {
    assert t !in st.tasks;
  }

  /** A fetch that succeeds leaves its image cached, one that fails its URL failed; only a request answers. */
  lemma FetchAnswers(st: State, t: TaskId, result: FetchResult, valid: Url -> bool)
    requires Enabled(st, FetchReturns(t, result))
    ensures var next := After(st, FetchReturns(t, result), valid);
      && t !in next.tasks && next.cachedUrl == Some(st.tasks[t].url)
      && next.answers == (if st.tasks[t].RetryFetch? then st.answers
                          else st.answers[t := if result.Success? then Image(result.bytes) else Nothing])
      && next.cachedBytes == (if result.Success? then Some(result.bytes) else None) && next.failed == result.Failure?
  {
  }

  /** Nothing is answered for no URL, nor again for one that failed. */
  lemma NothingToAnswer(st: State, t: TaskId, valid: Url -> bool)
    requires Inv(st) && Enabled(st, AskImage(t))
    requires st.url.None? || (st.failed && st.cachedUrl == st.url)
    ensures After(st, AskImage(t), valid) == st.(began := st.began[t := st.url], answers := st.answers[t := Nothing])
  {
    assert t !in st.tasks;
    assert st.tasks - {t} == st.tasks;
  }

  /** After an update that brings another URL no failure, no image and no retry of the old one is left. */
  lemma NewUrlResets(st: State, t: TaskId, valid: Url -> bool)
    requires Inv(st) && Enabled(st, HandleUpdate(t)) && st.url != st.cachedUrl
    ensures var next := After(st, HandleUpdate(t), valid);
      && !next.failed && next.cachedUrl == None && next.cachedBytes == None
      && next.url == st.url && forall k :: k in next.tasks <==> k in st.tasks && st.tasks[k].Request?
  {
  }

  /** From any failure of the current URL, the next update leads through one retry back to an image, if the fetch succeeds. */
  lemma RetryRecovers(st: State, t: TaskId, ask: TaskId, valid: Url -> bool, bytes: Bytes)
    requires Inv(st) && st.url.Some? && st.failed && st.cachedUrl == st.url && valid(st.url.value)
    requires (forall k :: k in st.tasks ==> !IsRetry(st.tasks[k])) && Enabled(st, HandleUpdate(t)) && Enabled(st, AskImage(ask)) && ask != t
    ensures var st1 := After(st, HandleUpdate(t), valid);
      Enabled(st1, RetryBegins(t))
      && var st2 := After(st1, RetryBegins(t), valid);
      Enabled(st2, FetchReturns(t, Success(bytes)))
      && var st3 := After(st2, FetchReturns(t, Success(bytes)), valid);
      !st3.failed && Enabled(st3, AskImage(ask))
      && After(st3, AskImage(ask), valid).answers == st.answers[ask := Image(bytes)]
  {
    hide Inv;
    if st.retry.Some? && st.retry.value in st.tasks {
      RetryIsOne(st);
    }
  }

  lemma RetryIsOne(st: State)
    requires Inv(st) && st.retry.Some? && st.retry.value in st.tasks
    ensures IsRetry(st.tasks[st.retry.value])
  {
    assert TaskHonest(st.tasks[st.retry.value], st.retry.value, st.began);
  }

  /** A retry fetches its URL if that names an asset, and otherwise ends with it failed. */
  lemma RetryStarts(st: State, t: TaskId, valid: Url -> bool)
    requires Enabled(st, RetryBegins(t))
    ensures var next, url := After(st, RetryBegins(t), valid), st.tasks[t].url;
      if valid(url) then next == st.(tasks := st.tasks[t := RetryFetch(url)])
      else t !in next.tasks && next.failed && next.cachedUrl == Some(url) && next.cachedBytes == None && next.answers == st.answers
  {
  }

  /** While a retry is pending or under way, updates for the same URL start no other. */
  lemma OneRetryAtATime(st: State, t: TaskId, running: TaskId, valid: Url -> bool)
    requires Inv(st) && Enabled(st, HandleUpdate(t)) && st.url == st.cachedUrl
    requires running in st.tasks && IsRetry(st.tasks[running])
    ensures After(st, HandleUpdate(t), valid) == st
  {
  }

  /** An update changes nothing while the URL is the same and has not failed. */
  lemma SameUrlKeeps(st: State, t: TaskId, valid: Url -> bool)
    requires Enabled(st, HandleUpdate(t)) && st.url == st.cachedUrl && !(st.failed && st.url.Some?)
    ensures After(st, HandleUpdate(t), valid) == st
  {
  }

  /** Cancelling a request or removing the entity leaves cache, failure and answers alone. */
  lemma CancellingKeeps(st: State, step: Step, valid: Url -> bool)
    requires Enabled(st, step) && (step.CancelRequest? || step.RemoveEntity?)
    ensures var next := After(st, step, valid);
      && next.cachedUrl == st.cachedUrl && next.cachedBytes == st.cachedBytes && next.failed == st.failed && next.answers == st.answers
      && (step.CancelRequest? ==> next.tasks.Keys == st.tasks.Keys - {step.t})
  {
  }

  /** Removing the entity leaves no retry behind. */
  lemma RemovalStopsRetry(st: State, valid: Url -> bool)
    requires Inv(st)
    ensures var next := After(st, RemoveEntity, valid);
      forall k :: k in next.tasks <==> k in st.tasks && !IsRetry(st.tasks[k])
  {
    if st.retry.Some? && st.retry.value in st.tasks {
      RetryIsOne(st);
    }
  }

  /** An image answered at once, from the cache, is one fetched from the URL of that moment. */
  lemma CachedAnswerIsCurrent(states: seq<State>, valid: Url -> bool, i: nat, t: TaskId)
    requires Execution(states, valid) && i < |states| && Enabled(states[i], AskImage(t))
    requires var now := After(states[i], AskImage(t), valid); t in now.answers && now.answers[t].Image?
    ensures var now := After(states[i], AskImage(t), valid);
      now.url.Some? && (now.url.value, now.answers[t].bytes) in now.fetched
  {
    AlwaysHonest(states, valid, i);
    StepKeepsInv(states[i], AskImage(t), valid);
  }

  /** An image answered by a fetch may be outdated: its URL is that of the request's beginning. */
  lemma LateAnswerExample(valid: Url -> bool, bytes: Bytes)
    requires valid("a")
    ensures var st1 := After(INITIAL, Publish(Some("a")), valid);
      var st2 := After(st1, AskImage(1), valid);
      var st3 := After(st2, Publish(Some("b")), valid);
      var st4 := After(st3, FetchReturns(1, Success(bytes)), valid);
      st4.answers[1] == Image(bytes) && st4.url == Some("b") && st4.cachedUrl == Some("a") != st4.url
  {
    assert "a" != "" && "b" != "" && "a"[0] != "b"[0];
  }
}
