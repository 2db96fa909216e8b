/**
 * The `App` and `Interface` components (frontend/src/App.jsx): the hover
 * state and the refresh counter of `App`, the crystal hover handlers, the
 * scanner line, the chat box and the `askNexus` question controller. The
 * network is a parameter: `Submit` returns the request it issues and
 * `Complete` takes how that request settled.
 */
module Interface {
  import opened Wrappers
  import opened Typewriter

  const Endpoint := "https://nexus-project-434h.onrender.com"
  const FailureMessage := "Connexion impossible."
  const Scanning := ">> SYSTEM SCANNING..."
  /** How many characters of the hovered text the scanner line shows. */
  const ScanLength := 60

  /** JavaScript truthiness of a string-or-null value: non-null and non-empty. */
  predicate Truthy(s: Option<string>)
  {
    s.Some? && s.value != ""
  }

  /** The request URL for a question; the question is inserted as typed, without URL encoding. */
  function AskUrl(question: string): (url: string)
    ensures |url| == |Endpoint + "/ask?question="| + |question|
    ensures url[|Endpoint + "/ask?question="|..] == question
  {
    Endpoint + "/ask?question=" + question
  }

  /**
   * The scanner line: with a hovered text, ">> " then at most its first 60
   * characters then "..."; otherwise the idle banner.
   */
  function ScannerLine(hovered: Option<string>): (line: string)
    ensures !Truthy(hovered) ==> line == Scanning
    ensures Truthy(hovered) ==>
      var t := hovered.value;
      var shown := Min(|t|, ScanLength);
      && |line| == shown + 6
      && line[..3] == ">> " && line[|line| - 3..] == "..."
      && line[3..|line| - 3] == t[..shown]
  {
    if Truthy(hovered) then
      var t := hovered.value;
      ">> " + t[..Min(|t|, ScanLength)] + "..."
    else Scanning
  }

  /**
   * The chat box: a truthy response mounts a `Typewriter` on it, anything
   * else shows the placeholder (`None`). The typewriter never receives an
   * empty text.
   */
  function ChatText(response: Option<string>): (text: Option<string>)
    ensures text.Some? <==> Truthy(response)
    ensures text.Some? ==> |text.value| > 0 && response == text
  {
    if Truthy(response) then response else None
  }

  /** How the question request settled: a JSON body with its `response` field, or a rejection. */
  datatype FetchOutcome = Answered(response: string) | Failed

  /** `App`'s state, and the document cursor the crystal handlers set. */
  class App {
    var hoveredText: Option<string>
    var refreshSignal: int
    /** `document.body.style.cursor`. */
    var cursor: string

    constructor ()
      ensures hoveredText == None && refreshSignal == 0 && cursor == ""
    {
      hoveredText, refreshSignal, cursor := None, 0, "";
    }

    /** `triggerRefresh`: the refresh counter rises by one and nothing else changes. */
    method TriggerRefresh()
      modifies this`refreshSignal
      ensures refreshSignal == old(refreshSignal) + 1
    {
      refreshSignal := refreshSignal + 1;
    }

    /** A crystal's `onPointerOver`: pointer cursor, and its text becomes the hover text. */
    method PointerOver(text: string)
      modifies this`cursor, this`hoveredText
      ensures cursor == "pointer" && hoveredText == Some(text)
    {
      cursor := "pointer";
      hoveredText := Some(text);
    }

    /** A crystal's `onPointerOut`: default cursor, and the hover text becomes null. */
    method PointerOut()
      modifies this`cursor, this`hoveredText
      ensures cursor == "auto" && hoveredText == None
    {
      cursor := "auto";
      hoveredText := None;
    }
  }

  /** `Interface`'s state. */
  class Interface {
    var question: string
    var response: Option<string>
    var loading: bool

    constructor ()
      ensures question == "" && response == None && !loading
    {
      question, response, loading := "", None, false;
    }

    /** The input's `onChange`. */
    method Edit(q: string)
      modifies this`question
      ensures question == q
    {
      question := q;
    }

    /**
     * `askNexus` up to its `await`: an empty question returns at once with
     * no request and no change; otherwise loading starts, the response is
     * cleared and the request for the question is issued.
     */
    method Submit() returns (request: Option<string>)
      modifies this
      ensures old(question) == "" ==>
        request == None && question == old(question) && response == old(response) && loading == old(loading)
      ensures old(question) != "" ==>
        request == Some(AskUrl(old(question))) && question == old(question) && response == None && loading
    {
      if question == "" {
        return None;
      }
      loading := true;
      response := None;
      request := Some(AskUrl(question));
    }

    /**
     * `askNexus` after its `await`: an answer becomes the response and
     * signals the refresh; a failure shows the fixed message and signals
     * nothing. Either way loading ends and the input is cleared.
     */
    method Complete(app: App, outcome: FetchOutcome)
      modifies this, app`refreshSignal
      ensures outcome.Answered? ==>
        response == Some(outcome.response) && app.refreshSignal == old(app.refreshSignal) + 1
      ensures outcome.Failed? ==>
        response == Some(FailureMessage) && app.refreshSignal == old(app.refreshSignal)
      ensures !loading && question == ""
    {
      match outcome {
        case Answered(r) =>
          response := Some(r);
          app.TriggerRefresh();
        case Failed =>
          response := Some(FailureMessage);
      }
      loading := false;
      question := "";
    }

    /** A whole `askNexus` exchange, with no other event while the request is in flight. */
    method AskNexus(app: App, outcome: FetchOutcome) returns (request: Option<string>)
      modifies this, app`refreshSignal
      ensures old(question) == "" ==>
        && request == None && question == old(question) && response == old(response)
        && loading == old(loading) && app.refreshSignal == old(app.refreshSignal)
      ensures old(question) != "" ==>
        && request == Some(AskUrl(old(question)))
        && response == Some(if outcome.Answered? then outcome.response else FailureMessage)
        && app.refreshSignal == old(app.refreshSignal) + (if outcome.Answered? then 1 else 0)
        && !loading && question == ""
      ensures app.hoveredText == old(app.hoveredText) && app.cursor == old(app.cursor)
    {
      request := Submit();
      if request.Some? {
        Complete(app, outcome);
      }
    }
  }
}
