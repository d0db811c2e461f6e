/** The browser state and its two operations (main.go, Browser, loadURL and
    displayContent). The network fetch and the HTML parser are parameters:
    fetch maps the normalised URL to the page body or an error message,
    parse maps the body to a document tree or an error message. */
module Viewer {
  import opened Url
  import opened Dom
  import opened Extract

  datatype Outcome<T> = Ok(value: T) | Err(msg: string)

  /** The observable state of the browser: the history of loaded URLs, the
      URL being shown, the text of the page view and of the status bar. */
  datatype View = View(history: seq<string>, currentURL: string, page: string, status: string)

  /** A fresh browser: no history, nothing shown. */
  const Fresh := View([], "", "", "")

  /** The current URL is the last URL of the history, and empty before the
      first successful load. */
  predicate CurrentIsLast(v: View) {
    if v.history == [] then v.currentURL == "" else v.currentURL == v.history[|v.history| - 1]
  }

  /** What the page view shows for a page body. */
  function Display(content: string, parse: string -> Outcome<Node>): string {
    match parse(content)
    case Err(m) => "Error parsing HTML: " + m
    case Ok(doc) => PageText(doc)
  }

  /** The state after loading url. */
  function Load(v: View, url: string, fetch: string -> Outcome<string>, parse: string -> Outcome<Node>): View {
    match fetch(ProcessURL(url))
    case Err(m) => v.(status := "Error: " + m)
    case Ok(content) => View(v.history + [url], url, Display(content, parse), "Loaded: " + url)
  }

  /** A failed fetch changes the status bar only: the history, the current
      URL and the page shown stay as they were. */
  lemma FailedLoadKeepsPage(v: View, url: string, fetch: string -> Outcome<string>, parse: string -> Outcome<Node>)
    requires fetch(ProcessURL(url)).Err?
    ensures Load(v, url, fetch, parse).history == v.history
    ensures Load(v, url, fetch, parse).currentURL == v.currentURL
    ensures Load(v, url, fetch, parse).page == v.page
    ensures Load(v, url, fetch, parse).status == "Error: " + fetch(ProcessURL(url)).msg
  {
  }

  /** The history grows by exactly the URL as typed (not its normalised
      form) when the fetch succeeds, and not at all otherwise. */
  lemma LoadHistory(v: View, url: string, fetch: string -> Outcome<string>, parse: string -> Outcome<Node>)
    ensures Load(v, url, fetch, parse).history
         == v.history + (if fetch(ProcessURL(url)).Ok? then [url] else [])
  {
    if fetch(ProcessURL(url)).Err? {
      assert v.history + [] == v.history;
    }
  }

  /** Loading keeps the current URL the last URL of the history. */
  lemma LoadKeepsCurrentIsLast(v: View, url: string, fetch: string -> Outcome<string>, parse: string -> Outcome<Node>)
    requires CurrentIsLast(v)
    ensures CurrentIsLast(Load(v, url, fetch, parse))
  {
  }

  /** The fetch is always asked for a URL with an explicit scheme, and the
      page shown after a successful fetch depends only on what was fetched:
      the status reports success even when the body fails to parse. */
  lemma SuccessfulLoad(v: View, url: string, fetch: string -> Outcome<string>, parse: string -> Outcome<Node>)
    requires fetch(ProcessURL(url)).Ok?
    ensures HasScheme(ProcessURL(url))
    ensures Load(v, url, fetch, parse).page == Display(fetch(ProcessURL(url)).value, parse)
    ensures Load(v, url, fetch, parse).status == "Loaded: " + url
    ensures Load(v, url, fetch, parse).currentURL == url
  {
  }

  /** The state after loading the URLs of urls one after the other. */
  function Loads(v: View, urls: seq<string>, fetch: string -> Outcome<string>, parse: string -> Outcome<Node>): View {
    if urls == [] then v
    else Load(Loads(v, urls[..|urls| - 1], fetch, parse), urls[|urls| - 1], fetch, parse)
  }

  /** The URLs of urls whose fetch succeeds, in order, as typed. */
  function Fetched(urls: seq<string>, fetch: string -> Outcome<string>): seq<string> {
    if urls == [] then []
    else
      var u := urls[|urls| - 1];
      Fetched(urls[..|urls| - 1], fetch) + (if fetch(ProcessURL(u)).Ok? then [u] else [])
  }

  /** Over a session, the history records exactly the URLs that were
      fetched, in the order they were loaded; failed loads leave no trace. */
  lemma {:induction false} LoadsHistory(v: View, urls: seq<string>, fetch: string -> Outcome<string>, parse: string -> Outcome<Node>)
    ensures Loads(v, urls, fetch, parse).history == v.history + Fetched(urls, fetch)
  {
    if urls == [] {
      assert v.history + [] == v.history;
    } else {
      var init := urls[..|urls| - 1];
      LoadsHistory(v, init, fetch, parse);
      LoadHistory(Loads(v, init, fetch, parse), urls[|urls| - 1], fetch, parse);
    }
  }

  /** Over a session, the current URL stays the last URL of the history. */
  lemma {:induction false} LoadsKeepCurrentIsLast(v: View, urls: seq<string>, fetch: string -> Outcome<string>, parse: string -> Outcome<Node>)
    requires CurrentIsLast(v)
    ensures CurrentIsLast(Loads(v, urls, fetch, parse))
  {
    if urls != [] {
      var init := urls[..|urls| - 1];
      LoadsKeepCurrentIsLast(v, init, fetch, parse);
      LoadKeepsCurrentIsLast(Loads(v, init, fetch, parse), urls[|urls| - 1], fetch, parse);
    }
  }

  /** A body that parses is shown as its page text; one that does not is
      replaced by the parser's message. */
  lemma DisplayOutcomes(content: string, parse: string -> Outcome<Node>)
    ensures parse(content).Ok? ==> Display(content, parse) == PageText(parse(content).value)
    ensures parse(content).Err? ==> Display(content, parse) == "Error parsing HTML: " + parse(content).msg
  {
  }

  class Browser {
    var history: seq<string>
    var currentURL: string
    var pageText: string
    var statusText: string

    function State(): View
      reads this
    {
      View(history, currentURL, pageText, statusText)
    }

    /** NewBrowser: an empty history and nothing shown yet. */
    constructor ()
      ensures State() == Fresh
      ensures CurrentIsLast(State())
    {
      history := [];
      currentURL := "";
      pageText := "";
      statusText := "";
    }

    /** displayContent: parses the body and sets the page view to its page
        text, or to the parser's message. */
    method DisplayContent(content: string, parse: string -> Outcome<Node>)
      modifies this`pageText
      ensures pageText == Display(content, parse)
    {
      var parsed := parse(content);
      match parsed {
        case Err(m) =>
          pageText := "Error parsing HTML: " + m;
        case Ok(doc) =>
          var page := RenderPage(doc);
          pageText := page;
      }
    }

    /** loadURL: reports loading, fetches the normalised URL, and on success
        records the URL as typed, shows the page and reports it loaded. */
    method LoadURL(url: string, fetch: string -> Outcome<string>, parse: string -> Outcome<Node>)
      modifies this
      ensures State() == Load(old(State()), url, fetch, parse)
    {
      statusText := "Loading...";
      var fetched := fetch(ProcessURL(url));
      if fetched.Err? {
        statusText := "Error: " + fetched.msg;
        return;
      }
      currentURL := url;
      history := history + [url];
      DisplayContent(fetched.value, parse);
      statusText := "Loaded: " + url;
    }
  }
}
