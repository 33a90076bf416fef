/**
 * The prototype client's posting form: a draft, a category, up to three emotion tags, and the
 * post action that sanitises and validates the draft, stores the new history, records it on the
 * user and awards the posting points. The form is reset by a block scheduled one and a half
 * seconds later; here that block is its own method.
 */
module KuyouPost {
  import opened Wrappers
  import opened Text
  import opened KuyouModels
  import opened KuyouStorage
  import opened KuyouContentFilter
  import Ordering

  /** The most tags a post may carry. */
  const MaxEmotionTags: nat := 3

  /** `Array(selectedEmotionTags)`: each selected tag once; the order of a Swift set is not
    * specified, and this model lists the tags in declaration order. */
  function TagList(tags: set<EmotionTag>): (r: seq<EmotionTag>)
    ensures forall t :: t in r <==> t in tags
    ensures Ordering.Distinct(r)
  {
    var r := Ordering.Filter(AllEmotionTags, (t: EmotionTag) => t in tags);
    AllEmotionTagsComplete(HelpMe);
    Ordering.FilterDistinct(AllEmotionTags, (t: EmotionTag) => t in tags);
    assert forall t :: t in r <==> t in tags by {
      forall t ensures t in r <==> t in tags {
        Ordering.FilterMultiset(AllEmotionTags, (t: EmotionTag) => t in tags, t);
        AllEmotionTagsComplete(t);
      }
    }
    r
  }

  /** The user after posting the history `id`: the id appended to their posts, then ten points
    * awarded, which grants the first-post achievement. */
  function Posted(u: UserModel, id: Uuid): (v: UserModel)
    ensures v.postedHistories == u.postedHistories + [id]
    ensures v.totalPoints == u.totalPoints + PostBlackHistory
    ensures v.id == u.id && v.lastActiveDate == u.lastActiveDate
    ensures v.salvationGiven == u.salvationGiven && v.bestAnswersReceived == u.bestAnswersReceived
    ensures v.achievements == u.achievements + Earned(v) && FirstPost in v.achievements
  {
    var w := u.(postedHistories := u.postedHistories + [id]);
    EarnedIgnoresPoints(w, Awarded(w, PostBlackHistory));
    assert Qualifies(w, FirstPost);
    Awarded(w, PostBlackHistory)
  }

  class PostViewModel {
    var content: string
    var selectedCategory: Category
    var selectedEmotionTags: set<EmotionTag>
    var isPosting: bool
    var showError: bool
    var errorMessage: string
    var showSuccessAnimation: bool
    const storage: Storage

    /** The form never holds more than three tags. */
    ghost predicate Valid()
      reads this
    {
      |selectedEmotionTags| <= MaxEmotionTags
    }

    constructor(storage: Storage)
      ensures Valid() && this.storage == storage
      ensures content == [] && selectedCategory == Other && selectedEmotionTags == {}
      ensures !isPosting && !showError && errorMessage == [] && !showSuccessAnimation
    {
      this.storage := storage;
      content, selectedCategory, selectedEmotionTags := [], Other, {};
      isPosting, showError, errorMessage, showSuccessAnimation := false, false, [], false;
    }

    /** `canPost`: some text besides white space, at least one tag, and no post running. */
    predicate CanPost()
      reads this
    {
      Trim(content) != [] && selectedEmotionTags != {} && !isPosting
    }

    /** `remainingCharacters`: counted down from the filter's maximum, negative once the
      * draft is over it. */
    function RemainingCharacters(): (n: int)
      reads this
      ensures n == MaxContentLength - |content|
      ensures n < 0 <==> |content| > MaxContentLength
    {
      500 - |content|
    }

    /** `toggleEmotionTag`: a selected tag is removed; another is added only while fewer than
      * three are selected. */
    method ToggleEmotionTag(tag: EmotionTag)
      requires Valid()
      modifies this
      ensures Valid()
      ensures old(tag in selectedEmotionTags) ==> selectedEmotionTags == old(selectedEmotionTags) - {tag}
      ensures old(tag !in selectedEmotionTags) && old(|selectedEmotionTags|) < MaxEmotionTags ==>
        selectedEmotionTags == old(selectedEmotionTags) + {tag}
      ensures old(tag !in selectedEmotionTags) && old(|selectedEmotionTags|) >= MaxEmotionTags ==>
        selectedEmotionTags == old(selectedEmotionTags)
      ensures content == old(content) && selectedCategory == old(selectedCategory)
      ensures isPosting == old(isPosting) && showError == old(showError)
      ensures errorMessage == old(errorMessage) && showSuccessAnimation == old(showSuccessAnimation)
    {
      if tag in selectedEmotionTags {
        selectedEmotionTags := selectedEmotionTags - {tag};
      } else {
        if |selectedEmotionTags| < 3 {
          selectedEmotionTags := selectedEmotionTags + {tag};
        }
      }
    }

    /** `post()`. With `canPost` false nothing happens. Otherwise the sanitised draft is
      * validated: if it passes, the history is stored, its id is appended to the user's posts
      * and ten points are awarded, which earns the first-post achievement; if it fails, nothing
      * is stored, the error's message is shown and the form is ready again. The history's id,
      * the new-user id and the date are given. */
    method Post(historyId: Uuid, freshUserId: Uuid, now: int)
      requires Valid()
      modifies this, storage
      ensures Valid()
      ensures !old(CanPost()) ==> unchanged(this) && unchanged(storage)
      ensures old(CanPost()) ==>
        Concluded(Sanitize(old(content)), Validate(Sanitize(old(content))), historyId, freshUserId, now)
      ensures content == old(content) && selectedCategory == old(selectedCategory)
      ensures selectedEmotionTags == old(selectedEmotionTags)
    {
      if !CanPost() {
        return;
      }
      var sanitized := Sanitize(content);
      Conclude(sanitized, Validate(sanitized), historyId, freshUserId, now);
    }

    /** What a post that got past `canPost` leaves behind, for the sanitised text and the
      * validation outcome: on success the history is stored, the user has it among their
      * posts, ten more points and the first-post achievement, and the form shows the success
      * animation while it stays busy; on failure the store is as it was, the error's message
      * is shown and the form is ready again. */
    twostate predicate Concluded(text: string, outcome: Result<(), ContentError>, historyId: Uuid,
                                 freshUserId: Uuid, now: int)
      reads this, storage
    {
      match outcome
      case Success(_) =>
        var h := NewBlackHistory(historyId, text, old(selectedCategory), TagList(old(selectedEmotionTags)), now);
        var before := old(storage.LoadUser(freshUserId, now));
        storage.histories == Upsert(old(storage.histories), h, HistoryKey, true)
        && storage.rewrites == old(storage.rewrites)
        && storage.user == Some(Posted(before, historyId))
        && isPosting && showSuccessAnimation && showError == old(showError)
        && errorMessage == old(errorMessage)
      case Failure(e) =>
        unchanged(storage) && !isPosting && showError && errorMessage == ErrorDescription(e)
        && showSuccessAnimation == old(showSuccessAnimation)
    }

    /** The form goes busy, then the two branches on the validation outcome. */
    method Conclude(text: string, outcome: Result<(), ContentError>, historyId: Uuid,
                    freshUserId: Uuid, now: int)
      requires Valid()
      modifies this, storage
      ensures Valid()
      ensures Concluded(text, outcome, historyId, freshUserId, now)
      ensures content == old(content) && selectedCategory == old(selectedCategory)
      ensures selectedEmotionTags == old(selectedEmotionTags)
    {
      isPosting := true;
      match outcome {
        case Success(_) =>
          var history := NewBlackHistory(historyId, text, selectedCategory, TagList(selectedEmotionTags), now);
          Publish(history, freshUserId, now);
          showSuccessAnimation := true;
        case Failure(e) =>
          ShowErrorMessage(ErrorDescription(e));
          isPosting := false;
      }
    }

    /** The body of a successful post: the history is saved, then the user is loaded, the
      * history recorded on it, the posting points awarded and the user saved. */
    method Publish(history: BlackHistory, freshUserId: Uuid, now: int)
      modifies storage
      ensures var before := old(storage.LoadUser(freshUserId, now));
        storage.histories == Upsert(old(storage.histories), history, HistoryKey, true)
        && storage.rewrites == old(storage.rewrites)
        && storage.user == Some(Posted(before, history.id))
    {
      storage.SaveBlackHistory(history);
      var user := storage.LoadUser(freshUserId, now);
      user := user.(postedHistories := user.postedHistories + [history.id]);
      user := AddPoints(user, PostBlackHistory);
      storage.SaveUser(user);
    }

    /** The block scheduled after a successful post: `resetForm()`, then the form is ready. */
    method FinishPost()
      modifies this
      ensures Valid()
      ensures content == [] && selectedCategory == Other && selectedEmotionTags == {}
      ensures !showSuccessAnimation && !isPosting
      ensures showError == old(showError) && errorMessage == old(errorMessage)
    {
      content := [];
      selectedCategory := Other;
      selectedEmotionTags := {};
      showSuccessAnimation := false;
      isPosting := false;
    }

    method ShowErrorMessage(message: string)
      modifies this
      ensures errorMessage == message && showError
      ensures content == old(content) && selectedCategory == old(selectedCategory)
      ensures selectedEmotionTags == old(selectedEmotionTags) && isPosting == old(isPosting)
      ensures showSuccessAnimation == old(showSuccessAnimation)
    {
      errorMessage := message;
      showError := true;
    }
  }
}
