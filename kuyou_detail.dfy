/**
 * The prototype client's detail screen for one history: its rewrites, the draft of a new
 * rewrite, likes, the choice of a best answer and the "salvation" button. Every action writes
 * through to the local store and then updates the user record the same way: load the user,
 * change a counter, award points, save the user.
 */
module KuyouDetail {
  import opened Wrappers
  import opened Text
  import opened KuyouModels
  import opened KuyouStorage
  import opened KuyouContentFilter

  /** The draft counter starts here, below the filter's 500-character maximum. */
  const RewriteCounterStart: int := 300

  /** The user after a rewrite: five points awarded; the check may grant what the unchanged
    * counters already qualify for. */
  function Rewarded(u: UserModel): (v: UserModel)
    ensures v.totalPoints == u.totalPoints + PostRewrite
    ensures v.id == u.id && v.lastActiveDate == u.lastActiveDate && v.postedHistories == u.postedHistories
    ensures v.salvationGiven == u.salvationGiven && v.bestAnswersReceived == u.bestAnswersReceived
    ensures v.achievements == u.achievements + Earned(v)
  {
    EarnedIgnoresPoints(u, Awarded(u, PostRewrite));
    Awarded(u, PostRewrite)
  }

  /** The user after their history gets a best answer: one more best answer received, then
    * fifty points awarded, which grants the first- and ten-best-answer achievements at those
    * counts. */
  function BestAnswered(u: UserModel): (v: UserModel)
    ensures v.bestAnswersReceived == u.bestAnswersReceived + 1
    ensures v.totalPoints == u.totalPoints + ReceiveBestAnswer
    ensures v.id == u.id && v.lastActiveDate == u.lastActiveDate && v.postedHistories == u.postedHistories
    ensures v.salvationGiven == u.salvationGiven
    ensures v.achievements == u.achievements + Earned(v)
    ensures u.bestAnswersReceived >= 0 ==> FirstBestAnswer in v.achievements
  {
    var w := u.(bestAnswersReceived := u.bestAnswersReceived + 1);
    EarnedIgnoresPoints(w, Awarded(w, ReceiveBestAnswer));
    assert w.bestAnswersReceived >= 1 ==> Qualifies(w, FirstBestAnswer);
    Awarded(w, ReceiveBestAnswer)
  }

  class DetailViewModel {
    var blackHistory: BlackHistory
    var rewrites: seq<Rewrite>
    var isLoadingRewrites: bool
    var showRewriteSheet: bool
    var rewriteContent: string
    var selectedRoute: RewriteRoute
    var showAscensionEffect: bool
    var showError: bool
    var errorMessage: string
    const storage: Storage

    /** `init(blackHistory:)`: the history is kept and its rewrites are loaded. */
    constructor(blackHistory: BlackHistory, storage: Storage)
      ensures this.storage == storage && this.blackHistory == blackHistory
      ensures rewrites == storage.LoadRewrites(blackHistory.id) && !isLoadingRewrites
      ensures !showRewriteSheet && rewriteContent == [] && selectedRoute == Comedy
      ensures !showAscensionEffect && !showError && errorMessage == []
    {
      this.storage := storage;
      this.blackHistory := blackHistory;
      rewrites := storage.LoadRewrites(blackHistory.id);
      isLoadingRewrites := false;
      showRewriteSheet, rewriteContent, selectedRoute := false, [], Comedy;
      showAscensionEffect, showError, errorMessage := false, false, [];
    }

    /** `loadRewrites()`: the history's rewrites, newest first, from the store. */
    method LoadRewrites()
      modifies this
      ensures rewrites == storage.LoadRewrites(blackHistory.id) && !isLoadingRewrites
      ensures blackHistory == old(blackHistory) && rewriteContent == old(rewriteContent)
      ensures showRewriteSheet == old(showRewriteSheet) && selectedRoute == old(selectedRoute)
      ensures showAscensionEffect == old(showAscensionEffect)
      ensures showError == old(showError) && errorMessage == old(errorMessage)
    {
      isLoadingRewrites := true;
      rewrites := storage.LoadRewrites(blackHistory.id);
      isLoadingRewrites := false;
    }

    /** `submitRewrite()`: the sanitised draft is validated; see `Submitted`. Nothing checks
      * `canSubmitRewrite` or whether the history is resolved. */
    method SubmitRewrite(rewriteId: Uuid, freshUserId: Uuid, now: int)
      modifies this, storage
      ensures Submitted(Sanitize(old(rewriteContent)), Validate(Sanitize(old(rewriteContent))),
                        rewriteId, freshUserId, now)
    {
      var sanitized := Sanitize(rewriteContent);
      Settle(sanitized, Validate(sanitized), rewriteId, freshUserId, now);
    }

    /** What a submission leaves behind, for the sanitised text and the validation outcome. On
      * success the new rewrite is stored at the end of the list and shown on the screen, the
      * user has five more points, the list is reloaded newest first, and the draft is cleared
      * and its sheet closed. On failure the store, the list and the draft are as they were and
      * the error's message is shown. */
    twostate predicate Submitted(text: string, outcome: Result<(), ContentError>, rewriteId: Uuid,
                                 freshUserId: Uuid, now: int)
      reads this, storage
    {
      blackHistory == old(blackHistory) && selectedRoute == old(selectedRoute)
      && showAscensionEffect == old(showAscensionEffect)
      && match outcome
        case Success(_) =>
          var r := NewRewrite(rewriteId, old(blackHistory.id), text, old(selectedRoute), now);
          var before := old(storage.LoadUser(freshUserId, now));
          storage.rewrites == Upsert(old(storage.rewrites), r, RewriteKey, false)
          && storage.histories == old(storage.histories)
          && storage.user == Some(Rewarded(before))
          && rewrites == storage.LoadRewrites(blackHistory.id) && r in rewrites && !isLoadingRewrites
          && rewriteContent == [] && !showRewriteSheet
          && showError == old(showError) && errorMessage == old(errorMessage)
        case Failure(e) =>
          unchanged(storage) && rewrites == old(rewrites) && rewriteContent == old(rewriteContent)
          && isLoadingRewrites == old(isLoadingRewrites) && showRewriteSheet == old(showRewriteSheet)
          && showError && errorMessage == ErrorDescription(e)
    }

    /** The two branches on the validation outcome. */
    method Settle(text: string, outcome: Result<(), ContentError>, rewriteId: Uuid,
                  freshUserId: Uuid, now: int)
      modifies this, storage
      ensures Submitted(text, outcome, rewriteId, freshUserId, now)
    {
      match outcome {
        case Success(_) =>
          Accept(text, rewriteId, freshUserId, now);
        case Failure(e) =>
          ShowErrorMessage(ErrorDescription(e));
      }
    }

    /** The success branch: save the rewrite, award the points, clear the draft, reload. */
    method Accept(text: string, rewriteId: Uuid, freshUserId: Uuid, now: int)
      modifies this, storage
      ensures var r := NewRewrite(rewriteId, old(blackHistory.id), text, old(selectedRoute), now);
        var before := old(storage.LoadUser(freshUserId, now));
        blackHistory == old(blackHistory) && selectedRoute == old(selectedRoute)
        && storage.rewrites == Upsert(old(storage.rewrites), r, RewriteKey, false)
        && storage.histories == old(storage.histories)
        && storage.user == Some(Rewarded(before))
        && rewrites == storage.LoadRewrites(blackHistory.id) && r in rewrites && !isLoadingRewrites
        && rewriteContent == [] && !showRewriteSheet
        && showAscensionEffect == old(showAscensionEffect)
        && showError == old(showError) && errorMessage == old(errorMessage)
    {
      var rewrite := NewRewrite(rewriteId, blackHistory.id, text, selectedRoute, now);
      StoreRewrite(rewrite, freshUserId, now);
      rewriteContent := [];
      showRewriteSheet := false;
      // `loadRewrites()` runs its update on the main queue, after this call returns.
      LoadRewrites();
    }

    /** The store's part of a submission: the rewrite is saved, then the user is loaded, given
      * the rewrite's points and saved. */
    method StoreRewrite(rewrite: Rewrite, freshUserId: Uuid, now: int)
      modifies storage
      ensures var before := old(storage.LoadUser(freshUserId, now));
        storage.rewrites == Upsert(old(storage.rewrites), rewrite, RewriteKey, false)
        && rewrite in storage.rewrites
        && storage.histories == old(storage.histories)
        && storage.user == Some(Rewarded(before))
    {
      storage.SaveRewrite(rewrite);
      FindAfterUpsert(old(storage.rewrites), rewrite, RewriteKey, false);
      var user := storage.LoadUser(freshUserId, now);
      user := AddPoints(user, PostRewrite);
      storage.SaveUser(user);
    }

    /** `likeRewrite(_:)`: the given rewrite with one more like is saved, and replaces the
      * first entry with its id on the screen, if there is one. */
    method LikeRewrite(rewrite: Rewrite)
      modifies this, storage
      ensures var liked := rewrite.(likeCount := rewrite.likeCount + 1);
        storage.rewrites == Upsert(old(storage.rewrites), liked, RewriteKey, false)
        && (match IndexOf(old(rewrites), rewrite.id, RewriteKey)
            case Some(i) => rewrites == old(rewrites)[i := liked]
            case None => rewrites == old(rewrites))
      ensures storage.histories == old(storage.histories) && storage.user == old(storage.user)
      ensures |rewrites| == |old(rewrites)|
      ensures forall j | 0 <= j < |rewrites| && old(rewrites)[j].id != rewrite.id :: rewrites[j] == old(rewrites)[j]
      ensures blackHistory == old(blackHistory) && rewriteContent == old(rewriteContent)
      ensures showError == old(showError) && showAscensionEffect == old(showAscensionEffect)
      ensures errorMessage == old(errorMessage) && selectedRoute == old(selectedRoute)
      ensures showRewriteSheet == old(showRewriteSheet) && isLoadingRewrites == old(isLoadingRewrites)
    {
      var updated := rewrite.(likeCount := rewrite.likeCount + 1);
      storage.UpdateRewrite(updated);
      match IndexOf(rewrites, rewrite.id, RewriteKey) {
        case Some(index) =>
          rewrites := rewrites[index := updated];
        case None =>
      }
    }

    /** `selectBestAnswer(_:)`. On a resolved history nothing happens. Otherwise the history
      * is resolved with the rewrite as its best answer, the rewrite is flagged and both are
      * saved, the user gains a best answer and fifty points (which earns the first-best-answer
      * achievement), and the flagged rewrite replaces its entry on the screen. The rewrite's
      * history and any earlier flag are not checked. */
    method SelectBestAnswer(rewrite: Rewrite, freshUserId: Uuid, now: int)
      modifies this, storage
      ensures old(blackHistory.isResolved) ==> unchanged(this) && unchanged(storage)
      ensures !old(blackHistory.isResolved) ==>
        var best := rewrite.(isBestAnswer := true);
        var before := old(storage.LoadUser(freshUserId, now));
        blackHistory == old(blackHistory).(isResolved := true, bestAnswerId := Some(rewrite.id))
        && storage.rewrites == Upsert(old(storage.rewrites), best, RewriteKey, false)
        && storage.histories == Upsert(old(storage.histories), blackHistory, HistoryKey, true)
        && storage.user == Some(BestAnswered(before))
        && showAscensionEffect
        && (match IndexOf(old(rewrites), rewrite.id, RewriteKey)
            case Some(i) => rewrites == old(rewrites)[i := best]
            case None => rewrites == old(rewrites))
      ensures blackHistory.isResolved
      ensures rewriteContent == old(rewriteContent) && selectedRoute == old(selectedRoute)
      ensures showRewriteSheet == old(showRewriteSheet) && isLoadingRewrites == old(isLoadingRewrites)
      ensures showError == old(showError) && errorMessage == old(errorMessage)
    {
      if blackHistory.isResolved {
        return;
      }
      var updated := rewrite.(isBestAnswer := true);
      blackHistory := blackHistory.(isResolved := true, bestAnswerId := Some(rewrite.id));
      StoreBestAnswer(updated, blackHistory, freshUserId, now);
      showAscensionEffect := true;
      match IndexOf(rewrites, rewrite.id, RewriteKey) {
        case Some(index) =>
          rewrites := rewrites[index := updated];
        case None =>
      }
    }

    /** The store's part of choosing a best answer: the flagged rewrite and the resolved
      * history are saved, then the user gains a best answer and fifty points. */
    method StoreBestAnswer(best: Rewrite, resolved: BlackHistory, freshUserId: Uuid, now: int)
      modifies storage
      ensures var before := old(storage.LoadUser(freshUserId, now));
        storage.rewrites == Upsert(old(storage.rewrites), best, RewriteKey, false)
        && storage.histories == Upsert(old(storage.histories), resolved, HistoryKey, true)
        && storage.user == Some(BestAnswered(before))
    {
      storage.UpdateRewrite(best);
      storage.UpdateBlackHistory(resolved);
      var user := storage.LoadUser(freshUserId, now);
      user := user.(bestAnswersReceived := user.bestAnswersReceived + 1);
      user := AddPoints(user, ReceiveBestAnswer);
      storage.SaveUser(user);
    }

    /** `giveSalvation()`: the history's count and the user's given count rise by one, and the
      * user gains two points. */
    method GiveSalvation(freshUserId: Uuid, now: int)
      modifies this, storage
      ensures blackHistory == old(blackHistory).(salvationCount := old(blackHistory.salvationCount) + 1)
      ensures storage.histories == Upsert(old(storage.histories), blackHistory, HistoryKey, true)
      ensures storage.rewrites == old(storage.rewrites)
      ensures storage.user == Some(Salvaged(old(storage.LoadUser(freshUserId, now))))
      ensures rewrites == old(rewrites) && rewriteContent == old(rewriteContent)
      ensures isLoadingRewrites == old(isLoadingRewrites) && showRewriteSheet == old(showRewriteSheet)
      ensures selectedRoute == old(selectedRoute) && showAscensionEffect == old(showAscensionEffect)
      ensures showError == old(showError) && errorMessage == old(errorMessage)
    {
      blackHistory := blackHistory.(salvationCount := blackHistory.salvationCount + 1);
      RecordSalvation(storage, blackHistory, freshUserId, now);
    }

    method ShowErrorMessage(message: string)
      modifies this
      ensures errorMessage == message && showError
      ensures blackHistory == old(blackHistory) && rewrites == old(rewrites)
      ensures rewriteContent == old(rewriteContent) && selectedRoute == old(selectedRoute)
      ensures showRewriteSheet == old(showRewriteSheet) && showAscensionEffect == old(showAscensionEffect)
      ensures isLoadingRewrites == old(isLoadingRewrites)
    {
      errorMessage := message;
      showError := true;
    }

    /** `canSubmitRewrite`: the draft has something besides white space. */
    predicate CanSubmitRewrite()
      reads this
    {
      Trim(rewriteContent) != []
    }

    /** `remainingCharacters`: counted down from 300, so it goes negative on drafts the filter
      * still accepts (up to 500 characters). */
    function RemainingCharacters(): (n: int)
      reads this
      ensures n == RewriteCounterStart - |rewriteContent|
      ensures n < 0 <==> |rewriteContent| > RewriteCounterStart
    {
      300 - |rewriteContent|
    }
  }
}
