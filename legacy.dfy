/**
 * The earlier plain-DOM version of the page (one fixed AppID): its guess
 * check compares trimmed, lower-cased strings, its redaction always hides the
 * title, and its handlers write into page elements.
 */
module LegacyPage {
  import opened Wrappers
  import opened Text
  import opened Redaction
  import opened TitleNormalizer

  /** The one game this page version shows. */
  const FixedAppId: int := 1364780

  const CorrectMessage: string := "Correct!"
  const CheckError: string := "Error checking guess."
  const TitleNotFound: string := "Game title not found."
  const NoReviewsFound: string := "No reviews found."

  const IncorrectPrefix: string := "Incorrect, try again! (Actual: "

  /** The text shown after a wrong guess: it reveals the actual name, `undefined` when there is none. */
  function IncorrectMessage(name: Option<string>): (r: string)
    ensures |r| == |IncorrectPrefix| + |JsString(name)| + 1
    ensures r[|IncorrectPrefix|..|r| - 1] == JsString(name)
  {
    IncorrectPrefix + JsString(name) + ")"
  }

  /**
   * The guess check: trimmed, lower-cased guess against the trimmed, lower-cased
   * name (`""` if missing); a guess that trims to the trimmed name is correct.
   */
  function GuessCorrect(guess: string, name: Option<string>): (b: bool)
    ensures Trim(guess) == Trim(name.GetOr("")) ==> b
  {
    ToLower(Trim(guess)) == ToLower(Trim(name.GetOr("")))
  }

  lemma LowerEmpty(s: string)
    ensures ToLower(s) == "" <==> s == ""
  {
  }

  /** A missing name is matched only by a guess that trims to nothing. */
  lemma MissingNameMatchesBlankOnly(guess: string)
    ensures GuessCorrect(guess, None) <==> Trim(guess) == ""
  {
    LowerEmpty(Trim(guess));
    assert Trim("") == "";
  }

  /** Whitespace around the guess never changes the verdict. */
  lemma GuessIgnoresPadding(a: string, guess: string, b: string, name: Option<string>)
    requires AllWhitespace(a) && AllWhitespace(b)
    ensures GuessCorrect(a + guess + b, name) <==> GuessCorrect(guess, name)
  {
    TrimPadding(a, guess, b);
  }

  /** Letter case of the guess never changes the verdict. */
  lemma GuessIgnoresCase(guess: string, name: Option<string>)
    ensures GuessCorrect(ToLower(guess), name) <==> GuessCorrect(guess, name)
  {
    TrimLower(guess);
    LowerTwice(Trim(guess));
  }

  /**
   * The React page's check accepts every guess this one accepts: trimming and
   * lower-casing are part of its normalization.
   */
  lemma LegacyAcceptedIsMatched(guess: string, title: string)
    requires GuessCorrect(guess, Some(title))
    ensures TitlesMatch(guess, title)
  {
    NormalizeTrim(guess);
    NormalizeTrim(title);
    NormalizeLower(Trim(guess));
    NormalizeLower(Trim(title));
  }

  /** The converse fails: this check does not drop the trademark sign, the React page's does. */
  lemma TrademarkOnlyMatchedByReactPage(guess: string, title: string)
    requires guess == "PORTAL" && title == "Portal"
    ensures TitlesMatch(guess, title + [TradeMark])
    ensures !GuessCorrect(guess, Some(title + [TradeMark]))
  {
    PortalMatchesTrademarked(guess, title);
    var marked := title + [TradeMark];
    assert !IsWhitespace(guess[0]) && !IsWhitespace(guess[5]);
    TrimNoEnds(guess);
    assert !IsWhitespace(marked[0]) && !IsWhitespace(marked[6]);
    TrimNoEnds(marked);
    assert |ToLower(Trim(guess))| == 6 && |ToLower(Trim(marked))| == 7;
  }

  /**
   * The redaction inside the reviews rendering: the title is trimmed first, an
   * empty one leaves the text alone, and every occurrence is hidden, never bold.
   */
  function RedactAlwaysHidden(text: string, name: Option<string>): (r: seq<Segment>)
    ensures Concat(r) == text
    ensures Trim(name.GetOr("")) == "" ==> r == [Plain(text)]
    ensures Trim(name.GetOr("")) != "" ==> Tiles(r, text, Trim(name.GetOr("")), true, 0)
    ensures forall k :: 0 <= k < |r| ==> !r[k].Bold?
    ensures forall k :: 0 <= k < |r| && r[k].Hidden? ==> FoldEq(r[k].text, Trim(name.GetOr("")))
  {
    var title := Trim(name.GetOr(""));
    RedactMarks(text, title, true);
    Redact(text, title, true)
  }

  /** What the reviews area shows: a message, or one redacted card per review. */
  datatype ReviewsView = Message(text: string) | Cards(cards: seq<seq<Segment>>)

  /**
   * The reviews rendering: without a `reviews` field the message; with one (even
   * an empty list, which is truthy) one card per review, in input order.
   */
  function RenderReviews(reviews: Option<seq<string>>, name: Option<string>): (v: ReviewsView)
    ensures reviews.None? <==> v == Message(NoReviewsFound)
    ensures reviews.Some? ==> v.Cards? && |v.cards| == |reviews.value|
    ensures reviews.Some? ==> forall k :: 0 <= k < |v.cards| ==>
      Concat(v.cards[k]) == reviews.value[k] && v.cards[k] == RedactAlwaysHidden(reviews.value[k], name)
  {
    match reviews
    case None => Message(NoReviewsFound)
    case Some(rs) => Cards(seq(|rs|, k requires 0 <= k < |rs| => RedactAlwaysHidden(rs[k], name)))
  }

  /** The page elements the handlers write. `headerFilter` is `None` while there is no header image. */
  class Page {
    var titleText: string
    var headerFilter: Option<string>
    var resultText: string
    var resultColor: string

    constructor ()
      ensures titleText == "" && headerFilter == None && resultText == "" && resultColor == ""
    {
      titleText := "";
      headerFilter := None;
      resultText := "";
      resultColor := "";
    }

    /** `fetchGameTitle`: show the name, and a blurred header image when there is one. */
    method ShowGameTitle(name: Option<string>, headerImage: Option<string>)
      modifies this
      ensures titleText == if name.GetOr("") != "" then "Game: " + name.value else TitleNotFound
      ensures headerFilter == if headerImage.GetOr("") != "" then Some("blur(16px)") else old(headerFilter)
      ensures unchanged(this`resultText, this`resultColor)
    {
      titleText := if name.GetOr("") != "" then "Game: " + name.value else TitleNotFound;
      if headerImage.GetOr("") != "" {
        headerFilter := Some("blur(16px)");
      }
    }

    /**
     * The guess form's submit handler once the name is fetched: a correct guess
     * says so and unblurs the header image if there is one; a wrong guess reports
     * the actual name and leaves the image as it is.
     */
    method CheckGuess(guessValue: string, name: Option<string>)
      modifies this
      ensures GuessCorrect(guessValue, name) ==>
        resultText == CorrectMessage && resultColor == "green" &&
        headerFilter == (if old(headerFilter).Some? then Some("none") else None)
      ensures !GuessCorrect(guessValue, name) ==>
        resultText == IncorrectMessage(name) && resultColor == "red" && headerFilter == old(headerFilter)
      ensures unchanged(this`titleText)
    {
      var guess := ToLower(Trim(guessValue));
      var actual := ToLower(Trim(name.GetOr("")));
      if guess == actual {
        resultText := CorrectMessage;
        resultColor := "green";
        if headerFilter.Some? {
          headerFilter := Some("none");
        }
      } else {
        resultText := IncorrectMessage(name);
        resultColor := "red";
      }
    }

    /** The guess check's request failed. */
    method CheckFailed()
      modifies this
      ensures resultText == CheckError
      ensures unchanged(this`titleText, this`headerFilter, this`resultColor)
    {
      resultText := CheckError;
    }
  }
}
