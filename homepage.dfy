/**
 * The state of the React page: the loaded AppID, the game's title and header
 * image, the reviews, the guess being typed, the verdict on the last guess,
 * whether the title is still blurred, and the loading and error indicators.
 * Each handler of the page is a method; each response of the two requests
 * the page sends when an AppID loads is a method too.
 */
module HomePage {
  import opened Wrappers
  import opened Text
  import opened TitleNormalizer
  import opened JsParse
  import opened ServerRoutes
  import opened Redaction

  /** A review as the page reads it: its text and whether it recommends the game. */
  datatype Review = Review(text: string, votedUp: bool)

  /** The verdict line under the guess form: empty until a guess is submitted. */
  datatype Verdict = Unanswered | Correct | Incorrect

  /** The text the page shows for each verdict. */
  function VerdictText(v: Verdict): string {
    match v
    case Unanswered => ""
    case Correct => "Correct!"
    case Incorrect => "Incorrect, try again!"
  }

  const DetailsError: string := "Error fetching game details."
  const ReviewsError: string := "Error fetching reviews."

  /** The title the page keeps from an app-details reply (`data.name || ""`). */
  function TitleFromReply(reply: DetailsReply): (title: string)
    ensures title != "" ==> reply.Found? && reply.name == Some(title)
  {
    if reply.Found? then reply.name.GetOr("") else ""
  }

  /** The header image the page keeps from an app-details reply (`data.header_image || ""`). */
  function ImageFromReply(reply: DetailsReply): (image: string)
    ensures image != "" ==> reply.Found? && reply.headerImage == Some(image)
  {
    if reply.Found? then reply.headerImage.GetOr("") else ""
  }

  /** An AppID the server does not find leaves the page without a title. */
  lemma NotFoundLeavesNoTitle(body: map<string, AppEntry>, appId: string)
    requires !(appId in body && body[appId].success && body[appId].data.Some?)
    ensures TitleFromReply(AppDetails(body, appId)) == ""
    ensures ImageFromReply(AppDetails(body, appId)) == ""
  {
  }

  class GameState {
    var appId: Option<int>
    var gameTitle: string
    var headerImage: string
    var reviews: seq<Review>
    var guessInput: string
    var guessResult: Verdict
    var isBlurred: bool
    var loading: bool
    var error: string

    /** The title is revealed exactly after a correct guess. */
    ghost predicate Valid()
      reads this
    {
      isBlurred <==> guessResult != Correct
    }

    /** The state right after a new AppID is set, before either response arrives. */
    ghost predicate JustLoaded()
      reads this
    {
      isBlurred && guessInput == "" && guessResult == Unanswered && gameTitle == "" && headerImage == "" &&
      reviews == [] && loading && error == ""
    }

    /** The initial state of the component (the AppID is still undefined). */
    constructor ()
      ensures Valid()
      ensures appId == None && gameTitle == "" && headerImage == "" && reviews == []
      ensures guessInput == "" && guessResult == Unanswered && isBlurred && !loading && error == ""
    {
      appId := None;
      gameTitle := "";
      headerImage := "";
      reviews := [];
      guessInput := "";
      guessResult := Unanswered;
      isBlurred := true;
      loading := false;
      error := "";
    }

    /**
     * `blurTitleInText` with the current title and blur flag: the text comes back
     * whole, every case-insensitive occurrence of the title is marked (`Tiles`),
     * every marked span is the title up to letter case, and the spans are hidden
     * while the title is blurred and bold once it is revealed.
     */
    function BlurTitleInText(text: string): (r: seq<Segment>)
      reads this
      ensures Concat(r) == text
      ensures gameTitle == "" ==> r == [Plain(text)]
      ensures gameTitle != "" ==> Tiles(r, text, gameTitle, isBlurred, 0)
      ensures forall k :: 0 <= k < |r| && !r[k].Plain? ==>
        FoldEq(r[k].text, gameTitle) && (r[k].Hidden? <==> isBlurred)
    {
      RedactMarks(text, gameTitle, isBlurred);
      Redact(text, gameTitle, isBlurred)
    }

    /** The guess field's change handler. */
    method EditGuess(value: string)
      requires Valid()
      modifies this
      ensures Valid()
      ensures guessInput == value
      ensures unchanged(this`appId, this`gameTitle, this`headerImage, this`reviews, this`guessResult, this`isBlurred, this`loading, this`error)
    {
      guessInput := value;
    }

    /**
     * `handleGuessSubmit`: ignored while there is no title; otherwise the guess is
     * correct exactly when it normalizes to the title's normal form, and the title
     * is revealed exactly then.
     */
    method SubmitGuess()
      requires Valid()
      modifies this
      ensures Valid()
      ensures old(gameTitle) == "" ==> unchanged(this`guessResult, this`isBlurred)
      ensures gameTitle != "" ==>
        isBlurred == !TitlesMatch(guessInput, gameTitle) &&
        guessResult == if isBlurred then Incorrect else Correct
      ensures unchanged(this`appId, this`gameTitle, this`headerImage, this`reviews, this`guessInput, this`loading, this`error)
    {
      if gameTitle == "" {
        return;
      }
      var matched := TitlesMatch(guessInput, gameTitle);
      guessResult := if matched then Correct else Incorrect;
      isBlurred := !matched;
    }

    /** The effect that runs when `appId` takes a new value: blur again and clear everything shown. */
    method ResetForNewAppId()
      modifies this
      ensures Valid() && JustLoaded()
      ensures unchanged(this`appId)
    {
      loading := true;
      error := "";
      isBlurred := true;
      guessInput := "";
      guessResult := Unanswered;
      gameTitle := "";
      headerImage := "";
      reviews := [];
    }

    /**
     * `handleAppIdChange`: an input that `parseInt` rejects changes nothing; a
     * number becomes the AppID, and when it differs from the current one the
     * effect resets the game (setting an equal value does not re-run the effect).
     */
    method ChangeAppId(input: string)
      requires Valid()
      modifies this
      ensures Valid()
      ensures ParseInt(input).None? ==> appId == old(appId)
      ensures ParseInt(input).Some? ==> appId == ParseInt(input)
      ensures appId != old(appId) ==> JustLoaded()
      ensures appId == old(appId) ==> unchanged(this)
    {
      var newId := ParseInt(input);
      if newId.Some? && newId != appId {
        appId := newId;
        ResetForNewAppId();
      }
    }

    /** The app-details response: keep its name and header image, or empty strings. */
    method DetailsLoaded(reply: DetailsReply)
      requires Valid()
      modifies this
      ensures Valid()
      ensures gameTitle == TitleFromReply(reply) && headerImage == ImageFromReply(reply)
      ensures unchanged(this`appId, this`reviews, this`guessInput, this`guessResult, this`isBlurred, this`loading, this`error)
    {
      gameTitle := TitleFromReply(reply);
      headerImage := ImageFromReply(reply);
    }

    /** The app-details request failed. */
    method DetailsFailed()
      requires Valid()
      modifies this
      ensures Valid()
      ensures error == DetailsError
      ensures unchanged(this`appId, this`gameTitle, this`headerImage, this`reviews, this`guessInput, this`guessResult, this`isBlurred, this`loading)
    {
      error := DetailsError;
    }

    /** The reviews response: its `reviews` list, or none when the field is missing; loading ends. */
    method ReviewsLoaded(list: Option<seq<Review>>)
      requires Valid()
      modifies this
      ensures Valid()
      ensures reviews == list.GetOr([]) && !loading
      ensures unchanged(this`appId, this`gameTitle, this`headerImage, this`guessInput, this`guessResult, this`isBlurred, this`error)
    {
      reviews := list.GetOr([]);
      loading := false;
    }

    /** The reviews request failed: show the error and end loading. */
    method ReviewsFailed()
      requires Valid()
      modifies this
      ensures Valid()
      ensures error == ReviewsError && !loading
      ensures unchanged(this`appId, this`gameTitle, this`headerImage, this`reviews, this`guessInput, this`guessResult, this`isBlurred)
    {
      error := ReviewsError;
      loading := false;
    }
  }
}
