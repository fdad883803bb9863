/**
  The command dispatcher: the `switch` on a resolved command's `type` that decides which
  page, if any, is opened in a new browser tab. Only the choice of page is modelled;
  speaking the reply and setting the reply text belong to the controller.
 */
module CommandDispatch {
  import opened Options
  import UriComponent

  /** What the intent resolver returns; the source's `type` field is `kind` here. */
  datatype Command = Command(kind: string, userInput: string, response: string)

  /** The arguments of one `window.open` call; `target` is `None` when only a URL is passed. */
  datatype WindowOpen = WindowOpen(url: string, target: Option<string>)

  const NewTab: string := "_blank"
  const GoogleSearchPrefix: string := "https://www.google.com/search?q="
  const YoutubeResultsPrefix: string := "https://www.youtube.com/results?search_query="
  const CalculatorUrl: string := "https://www.google.com/search?q=calculator"
  const FacebookUrl: string := "https://www.facebook.com/"
  const WeatherUrl: string := "https://www.google.com/search?q=weather"
  /**
    The single argument of the Instagram branch: a string literal that swallowed the
    intended `', "_blank"` argument list, so the URL ends in a back-quote, a comma, a
    space and the quoted word `_blank`, and no target is passed.
   */
  const InstagramArgument: string := "https://www.instagram.com/`, '_blank"

  const SearchKinds: set<string> := {"google-search", "youtube-search", "youtube-play"}
  const FixedKinds: set<string> := {"calculator-open", "instagram-open", "facebook-open", "weather-show"}

  /**
    The page a command of type `kind` opens: one for each of the seven recognised types,
    and none for any other type, which is not an error.
   */
  function Dispatch(kind: string, userInput: string): (r: Option<WindowOpen>)
    ensures r.Some? <==> kind in SearchKinds + FixedKinds
  {
    var query := UriComponent.Encode(userInput);
    if kind == "google-search" then Some(WindowOpen(GoogleSearchPrefix + query, Some(NewTab)))
    else if kind == "calculator-open" then Some(WindowOpen(CalculatorUrl, Some(NewTab)))
    else if kind == "instagram-open" then Some(WindowOpen(InstagramArgument, None))
    else if kind == "facebook-open" then Some(WindowOpen(FacebookUrl, Some(NewTab)))
    else if kind == "weather-show" then Some(WindowOpen(WeatherUrl, Some(NewTab)))
    else if kind == "youtube-search" || kind == "youtube-play" then
      Some(WindowOpen(YoutubeResultsPrefix + query, Some(NewTab)))
    else None
  }

  /** The URL prefix a search kind puts in front of the encoded input. */
  function SearchPrefix(kind: string): (p: string)
    requires kind in SearchKinds
    ensures kind == "google-search" ==> p == GoogleSearchPrefix
    ensures kind != "google-search" ==> p == YoutubeResultsPrefix
  {
    if kind == "google-search" then GoogleSearchPrefix else YoutubeResultsPrefix
  }

  /**
    A search opens its prefix followed by a query that holds only unreserved characters
    and `%HH` escapes, and from which the user's words decode back unchanged.
   */
  lemma SearchCarriesInput(kind: string, userInput: string)
    requires kind in SearchKinds
    ensures var r := Dispatch(kind, userInput);
      && r.Some? && r.value.target == Some(NewTab)
      && |SearchPrefix(kind)| <= |r.value.url|
      && r.value.url[..|SearchPrefix(kind)|] == SearchPrefix(kind)
      && UriComponent.IsEncoded(r.value.url[|SearchPrefix(kind)|..])
      && r.value.url == SearchPrefix(kind) + UriComponent.Encode(userInput)
      && UriComponent.Decode(r.value.url[|SearchPrefix(kind)|..]) == Some(userInput)
  {
    var p := SearchPrefix(kind);
    var url := Dispatch(kind, userInput).value.url;
    assert url == p + UriComponent.Encode(userInput);
    assert url[|p|..] == UriComponent.Encode(userInput);
    UriComponent.EncodeIsEncoded(userInput);
    UriComponent.RoundTrip(userInput);
  }

  /** The calculator is the Google search for "calculator", in a new tab. */
  lemma CalculatorPage(x: string)
    ensures Dispatch("calculator-open", x) == Dispatch("google-search", "calculator")
  {
    FixedPage("calculator-open", x, CalculatorUrl);
    SearchForWord("calculator", CalculatorUrl);
  }

  /** The weather is the Google search for "weather", in a new tab. */
  lemma WeatherPage(x: string)
    ensures Dispatch("weather-show", x) == Dispatch("google-search", "weather")
  {
    FixedPage("weather-show", x, WeatherUrl);
    SearchForWord("weather", WeatherUrl);
  }

  /** The calculator and weather branches open their literal URL in a new tab. */
  lemma FixedPage(kind: string, x: string, url: string)
    requires (kind == "calculator-open" && url == CalculatorUrl) || (kind == "weather-show" && url == WeatherUrl)
    ensures Dispatch(kind, x) == Some(WindowOpen(url, Some(NewTab)))
  {
  }

  /** The Google search for "calculator" or "weather" is exactly the matching fixed URL. */
  lemma SearchForWord(w: string, url: string)
    requires (w == "calculator" && url == CalculatorUrl) || (w == "weather" && url == WeatherUrl)
    ensures Dispatch("google-search", w) == Some(WindowOpen(url, Some(NewTab)))
  {
    LowerWordUnchanged(w);
    assert GoogleSearchPrefix + w == url;
  }

  /** Facebook's home page, in a new tab. */
  lemma FacebookPage(x: string)
    ensures Dispatch("facebook-open", x) == Some(WindowOpen("https://www.facebook.com/", Some(NewTab)))
  {
  }

  /** Instagram gets its one literal argument and no target. */
  lemma InstagramPage(x: string)
    ensures Dispatch("instagram-open", x) == Some(WindowOpen("https://www.instagram.com/" + "`, '_blank", None))
  {
    assert "https://www.instagram.com/" + "`, '_blank" == InstagramArgument;
  }

  /** A word of lower-case letters is its own query. */
  lemma LowerWordUnchanged(w: string)
    requires forall i :: 0 <= i < |w| ==> 'a' <= w[i] <= 'z'
    ensures Dispatch("google-search", w) == Some(WindowOpen(GoogleSearchPrefix + w, Some(NewTab)))
  {
    UriComponent.EncodeUnchangedIff(w);
  }

  /** Two different inputs of the same search kind open two different pages. */
  lemma SearchUrlsDistinguishInputs(kind: string, a: string, b: string)
    requires kind in SearchKinds
    requires a != b
    ensures Dispatch(kind, a) != Dispatch(kind, b)
  {
    var p := SearchPrefix(kind);
    if Dispatch(kind, a) == Dispatch(kind, b) {
      var ua := Dispatch(kind, a).value.url;
      assert ua[|p|..] == UriComponent.Encode(a);
      assert ua[|p|..] == UriComponent.Encode(b);
      UriComponent.EncodeInjective(a, b);
    }
  }

  /** `youtube-search` and `youtube-play` open the same results page. */
  lemma YoutubeKindsAgree(userInput: string)
    ensures Dispatch("youtube-search", userInput) == Dispatch("youtube-play", userInput)
  {
  }

  /** The calculator, Instagram, Facebook and weather pages do not depend on the input. */
  lemma FixedPagesIgnoreInput(kind: string, a: string, b: string)
    requires kind in FixedKinds
    ensures Dispatch(kind, a) == Dispatch(kind, b)
  {
  }

  /**
    Every call but Instagram's passes the target `"_blank"` explicitly. Instagram's call
    passes only a URL, so the target takes its default, which is a new tab as well; that
    URL holds a back-quote, a character no URI may contain.
   */
  lemma ExplicitTargetExceptInstagram(kind: string, userInput: string)
    requires Dispatch(kind, userInput).Some?
    ensures Dispatch(kind, userInput).value.target == None <==> kind == "instagram-open"
    ensures kind != "instagram-open" ==> Dispatch(kind, userInput).value.target == Some(NewTab)
    ensures kind == "instagram-open" ==> '`' in Dispatch(kind, userInput).value.url
  {
    if kind == "instagram-open" {
      assert InstagramArgument[26] == '`';
    }
  }
}
