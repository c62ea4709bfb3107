/** The plugin object: its one piece of state (the API key), the routing of
    the typed text in `on_suggest` and `_thing`, and what ends up in the
    suggestion list. */
module Plugin {
  import opened Strings
  import opened Answers

  const DefaultKeyword := ":W"
  const DefaultApiKey := ""
  const NoKeyMessage := "You don't have an API key."
  const SendHint := "Add a backslash ( \\ ) to send query."

  /** The first item of the launcher's item chain, as far as the plugin
      looks at it. */
  datatype ChainItem = ChainItem(category: Category, target: string)

  /** The query parameters of the HTTP request to the API endpoint. */
  datatype Request = Request(input: string, appid: string)

  /** What `_thing` decides: the "no API key" string, the preview item, or a
      request to the provider for the given text. */
  datatype Route = NoKey | Preview(item: Item) | Ask(query: string)

  /** An element of the list handed to `set_suggestions`: the plugin passes
      bare strings as well as items. */
  datatype Suggestion = Note(text: string) | Entry(item: Item)

  /** How `on_suggest` ends: it returns early without suggestions, an
      exception escapes it, or it sets the suggestion list. */
  datatype Outcome = Silent | Raised | Shown(suggestions: seq<Suggestion>)

  predicate StartsWithKeyword(s: string)
  {
    |s| >= |DefaultKeyword| && s[..|DefaultKeyword|] == DefaultKeyword
  }

  /** The catalog item the plugin registers, selected as the chain head. */
  predicate IsKeywordItem(c: ChainItem)
  {
    c.category == Keyword && c.target == DefaultKeyword
  }

  /** The text `on_suggest` hands to `_thing`. With the `:W` prefix only the
      first character is cut (`user_input[1:]`), so the `W` stays. */
  function QueryText(userInput: string): (t: string)
    ensures StartsWithKeyword(userInput) ==> t != [] && t[0] == 'W'
    ensures !StartsWithKeyword(userInput) ==> t == userInput
  {
    if StartsWithKeyword(userInput) then
      assert userInput[1..][0] == userInput[..2][1] == 'W';
      StripEnds(userInput[1..]);
      Strip(userInput[1..])
    else userInput
  }

  function PreviewItem(text: string): Item
  {
    Item(Expression, "= " + text, SendHint, text)
  }

  /** `_thing`: without a key, the message; with one, the preview unless the
      text ends in a backslash, which sends the text without it. */
  function Thing(text: string, apiKey: string): (r: Route)
    requires apiKey == "" || text != ""
    ensures r.NoKey? <==> apiKey == ""
    ensures r.Preview? <==> apiKey != "" && text[|text| - 1] != '\\'
    ensures r.Preview? ==>
              r.item.category == Expression && r.item.target == text && r.item.caption == "= " + text
    ensures r.Ask? ==> r.query + "\\" == text
  {
    if apiKey == "" then NoKey
    else if text[|text| - 1] == '\\' then
      assert text[..|text| - 1] + "\\" == text;
      Ask(text[..|text| - 1])
    else Preview(PreviewItem(text))
  }

  /** `on_suggest`'s wrapping of a bare result into a one-element tuple. */
  function Wrap(v: Value): (s: seq<Suggestion>)
    requires !v.Crashed?
    ensures v.Listing? ==> |s| == |v.items| && forall k | 0 <= k < |s| :: s[k] == Entry(v.items[k])
    ensures v.Message? ==> s == [Note(v.text)]
    ensures v.Single? ==> s == [Entry(v.item)]
  {
    match v
    case Message(text) => [Note(text)]
    case Single(item) => [Entry(item)]
    case Listing(items) => seq(|items|, k requires 0 <= k < |items| => Entry(items[k]))
  }

  /** What the suggestion list becomes once `_askWA` has returned. */
  function Deliver(v: Value): (out: Outcome)
    ensures out == Raised <==> v.Crashed?
    ensures out != Silent
  {
    if v.Crashed? then Raised else Shown(Wrap(v))
  }

  /** Appending the confirmation backslash to any text sends exactly that
      text, once a key is configured. */
  lemma ThingSendsMarked(query: string, apiKey: string)
    requires apiKey != ""
    ensures Thing(query + "\\", apiKey) == Ask(query)
  {
    assert (query + "\\")[..|query|] == query;
  }

  /** With the `:W` prefix, a request is only ever made for text that still
      begins with the keyword's `W`. */
  lemma KeywordQueryKeepsW(userInput: string, apiKey: string)
    requires StartsWithKeyword(userInput) && apiKey != ""
    ensures var r := Thing(QueryText(userInput), apiKey);
            r.Ask? ==> r.query != [] && r.query[0] == 'W'
  {
    var t := QueryText(userInput);
    var r := Thing(t, apiKey);
    if r.Ask? {
      assert t[0] == (r.query + "\\")[0];
    }
  }

  /** A reply with answers shows them followed by the link item, which is
      the only URL suggestion. */
  lemma ListingShowsLinkLast(text: string, reply: Reply, quote: string -> string)
    requires FormatReply(text, reply, quote).Listing?
    ensures var out := Deliver(FormatReply(text, reply, quote));
            out.Shown? && |out.suggestions| >= 2
            && out.suggestions[|out.suggestions| - 1] == Entry(LinkItem(text, quote))
            && forall k | 0 <= k < |out.suggestions| ::
                 (out.suggestions[k].Entry? && out.suggestions[k].item.category == Url
                  <==> k == |out.suggestions| - 1)
  {
    OneLinkItem(text, reply, quote);
  }

  /** A failed HTTP request shows one bare message naming the status code,
      and no link item. */
  lemma ErrorShowsMessage(text: string, reply: Reply, quote: string -> string)
    requires reply.status != StatusOk
    ensures var out := Deliver(FormatReply(text, reply, quote));
            out.Shown? && |out.suggestions| == 1 && out.suggestions[0].Note?
            && |ErrorPrefix| <= |out.suggestions[0].text|
            && out.suggestions[0].text[..|ErrorPrefix|] == ErrorPrefix
            && DecimalValue(out.suggestions[0].text[|ErrorPrefix|..]) == reply.status
  {
    ErrorReply(text, reply, quote);
  }

  class WA {
    /** The `apiKey` setting; empty when none is configured. */
    var apiKey: string

    constructor ()
      ensures apiKey == DefaultApiKey
    {
      apiKey := DefaultApiKey;
    }

    /** `_read_config`: the `apiKey` entry of section `main` when the
        settings have one, else the current key. */
    method ReadConfig(settings: map<(string, string), string>)
      modifies this
      ensures ("main", "apiKey") in settings ==> apiKey == settings[("main", "apiKey")]
      ensures ("main", "apiKey") !in settings ==> apiKey == old(apiKey)
    {
      apiKey := if ("main", "apiKey") in settings then settings[("main", "apiKey")] else apiKey;
    }

    /** `on_suggest` with `_thing` and `_askWA`. The provider stands for the
        HTTP request and the parsing of its reply, `quote` for
        `urllib.parse.quote_plus`; `sent` is the request made, if any. */
    method OnSuggest(userInput: string, chain: seq<ChainItem>, provider: Request -> Reply,
                     quote: string -> string)
      returns (sent: Option<Request>, out: Outcome)
      ensures out.Silent? <==>
                (userInput == [] || (chain != [] && !IsKeywordItem(chain[0]))
                 || (chain == [] && !StartsWithKeyword(userInput)))
      ensures out.Silent? ==> sent == None
      ensures !out.Silent? ==> QueryText(userInput) != []
      ensures apiKey == "" ==> sent == None && (out.Silent? || out == Shown([Note(NoKeyMessage)]))
      ensures sent.Some? <==> !out.Silent? && Thing(QueryText(userInput), apiKey).Ask?
      ensures sent.Some? ==>
                (sent.value.appid == apiKey && sent.value.input + "\\" == QueryText(userInput)
                 && out == Deliver(FormatReply(sent.value.input, provider(sent.value), quote)))
      ensures !out.Silent? && apiKey != "" && sent.None? ==>
        out == Shown([Entry(PreviewItem(QueryText(userInput)))])
    {
      sent := None;
      if |userInput| == 0 {
        return sent, Silent;
      }
      if chain != [] && (chain[0].category != Keyword || chain[0].target != DefaultKeyword) {
        return sent, Silent;
      }
      var text := userInput;
      if StartsWithKeyword(text) {
        // always evaluate what follows the keyword
        text := Strip(text[1..]);
        // `if not len(user_input): return` is never taken: the `W` of the
        // keyword is still at the front
        assert text == QueryText(userInput) && text != [];
      } else if chain == [] {
        return sent, Silent;
      }
      var route := Thing(text, apiKey);
      match route
      case NoKey =>
        out := Shown([Note(NoKeyMessage)]);
      case Preview(item) =>
        out := Shown([Entry(item)]);
      case Ask(query) =>
        var request := Request(query, apiKey);
        var v := AskWA(query, provider(request), quote);
        sent := Some(request);
        out := Deliver(v);
    }
  }
}
