/**
 * The edit mode of the article information table. The edit state is a copy of
 * the article; each input replaces one field of it through a functional
 * update, and saving hands the current edit state to the caller. Keywords are
 * shown in one text input as a ", "-joined list and read back by splitting at
 * commas, trimming, and dropping empty pieces.
 */
module ArticleInfoTable {
  import opened Model
  import opened StringMethods

  /** The text the keyword input displays for a keyword list. */
  function FormatKeywords(keywords: seq<JsString>): (text: JsString)
    ensures keywords == [] ==> text == []
    ensures keywords != [] ==> |keywords[0]| <= |text| && text[..|keywords[0]|] == keywords[0]
  {
    Join(keywords, ", ")
  }

  /** Each piece, trimmed (`map(value => value.trim())`). */
  function TrimAll(pieces: seq<JsString>): (r: seq<JsString>)
    ensures |r| == |pieces|
    ensures forall i :: 0 <= i < |r| ==> r[i] == Trim(pieces[i])
  {
    if pieces == [] then [] else [Trim(pieces[0])] + TrimAll(pieces[1..])
  }

  /** The nonempty pieces, in order (`filter(value => value !== '')`). */
  function DropEmpty(pieces: seq<JsString>): (r: seq<JsString>)
    ensures |r| <= |pieces|
    ensures forall i :: 0 <= i < |r| ==> r[i] != []
    ensures forall i :: 0 <= i < |r| ==> exists j :: 0 <= j < |pieces| && r[i] == pieces[j]
  {
    if pieces == [] then []
    else
      assert pieces == [pieces[0]] + pieces[1..];
      (if pieces[0] == [] then [] else [pieces[0]]) + DropEmpty(pieces[1..])
  }

  /** The keyword list the typed text stands for. */
  function ParseKeywords(text: JsString): (keywords: seq<JsString>)
    ensures |keywords| <= |Split(text)|
  {
    DropEmpty(TrimAll(Split(text)))
  }

  /** A keyword as parsing produces it: nonempty, comma-free, and trimmed. */
  predicate WellFormedKeyword(k: JsString)
  {
    k != [] && ',' !in k && Trim(k) == k
  }

  /** Every keyword of the list is well formed. */
  predicate WellFormed(keywords: seq<JsString>)
  {
    forall i :: 0 <= i < |keywords| ==> WellFormedKeyword(keywords[i])
  }

  // The edit state and its updates.

  /** Typing in the name input replaces the name and nothing else. */
  function OnNameChange(state: Article, value: JsString): (r: Article)
    ensures r.name == value
    ensures r.gtin == state.gtin && r.keywords == state.keywords && r.targetAmount == state.targetAmount
  {
    state.(name := value)
  }

  /** Typing in the keyword input replaces the keywords by the parsed text and nothing else. */
  function OnKeywordsChange(state: Article, text: JsString): (r: Article)
    ensures r.keywords == ParseKeywords(text) && WellFormed(r.keywords)
    ensures r.gtin == state.gtin && r.name == state.name && r.targetAmount == state.targetAmount
  {
    ParseWellFormed(text);
    state.(keywords := ParseKeywords(text))
  }

  /**
   * Releasing a key in the keyword input: a comma appends a one-space
   * placeholder keyword, so that the displayed text shows the separator the
   * user just typed; any other key leaves the state as it is.
   */
  function OnKeywordsKeyUp(state: Article, key: JsString): (r: Article)
    ensures key == "," ==> r.keywords == state.keywords + [" "]
    ensures key != "," ==> r == state
    ensures r.gtin == state.gtin && r.name == state.name && r.targetAmount == state.targetAmount
  {
    if key != "," then state
    else state.(keywords := state.keywords + [" "])
  }

  /** Changing the target-amount input replaces the target amount and nothing else. */
  function OnTargetAmountChange(state: Article, valueAsNumber: real): (r: Article)
    ensures r.targetAmount == valueAsNumber
    ensures r.gtin == state.gtin && r.name == state.name && r.keywords == state.keywords
  {
    state.(targetAmount := valueAsNumber)
  }

  /** The input events of edit mode. */
  datatype EditEvent =
    | NameChanged(value: JsString)
    | KeywordsChanged(text: JsString)
    | KeywordsKeyUp(key: JsString)
    | TargetAmountChanged(valueAsNumber: real)

  /** The edit state after one event. */
  function Apply(state: Article, e: EditEvent): (r: Article)
    ensures r.gtin == state.gtin
  {
    match e
    case NameChanged(v) => OnNameChange(state, v)
    case KeywordsChanged(t) => OnKeywordsChange(state, t)
    case KeywordsKeyUp(k) => OnKeywordsKeyUp(state, k)
    case TargetAmountChanged(n) => OnTargetAmountChange(state, n)
  }

  /**
   * The article handed to the save callback after the given events: the edit
   * state starts as the article itself and takes the events in order. The GTIN
   * has no input and is never edited.
   */
  function Saved(article: Article, events: seq<EditEvent>): (r: Article)
    ensures r.gtin == article.gtin
    ensures events == [] ==> r == article
    decreases events
  {
    if events == [] then article else Saved(Apply(article, events[0]), events[1..])
  }

  // Properties of the keyword parser.

  /** Trimming distributes over concatenation of piece lists. */
  lemma {:induction false} TrimAllAppend(x: seq<JsString>, y: seq<JsString>)
    ensures TrimAll(x + y) == TrimAll(x) + TrimAll(y)
  {
    if x == [] {
      assert x + y == y;
    } else {
      assert (x + y)[1..] == x[1..] + y;
      TrimAllAppend(x[1..], y);
      assert (x + y)[0] == x[0];
    }
  }

  /** Dropping empty pieces distributes over concatenation. */
  lemma {:induction false} DropEmptyAppend(x: seq<JsString>, y: seq<JsString>)
    ensures DropEmpty(x + y) == DropEmpty(x) + DropEmpty(y)
  {
    if x == [] {
      assert x + y == y;
    } else {
      assert (x + y)[1..] == x[1..] + y;
      DropEmptyAppend(x[1..], y);
      assert (x + y)[0] == x[0];
    }
  }

  /** Parsing at a comma concatenates the parses of the two sides. */
  lemma ParseAtComma(a: JsString, b: JsString)
    ensures ParseKeywords(a + [','] + b) == ParseKeywords(a) + ParseKeywords(b)
  {
    SplitAtComma(a, b);
    TrimAllAppend(Split(a), Split(b));
    DropEmptyAppend(TrimAll(Split(a)), TrimAll(Split(b)));
  }

  /** Text without commas parses to its trimmed self, or to nothing when that is empty. */
  lemma ParseNoComma(a: JsString)
    requires ',' !in a
    ensures ParseKeywords(a) == if Trim(a) == [] then [] else [Trim(a)]
  {
    SplitNoComma(a);
    assert TrimAll([a]) == [Trim(a)];
  }

  /** Every parsed keyword is nonempty, comma-free and equal to its own trim. */
  lemma {:induction false} ParseWellFormed(text: JsString)
    ensures WellFormed(ParseKeywords(text))
  {
    var pieces := Split(text);
    var trimmed := TrimAll(pieces);
    forall i | 0 <= i < |trimmed|
      ensures ',' !in trimmed[i] && Trim(trimmed[i]) == trimmed[i]
    {
      TrimKeepsNoComma(pieces[i]);
      TrimIdempotent(pieces[i]);
    }
    var keywords := DropEmpty(trimmed);
    forall i | 0 <= i < |keywords|
      ensures WellFormedKeyword(keywords[i])
    {
      assert keywords[i] in trimmed;
    }
  }

  /** Text made only of commas and whitespace, the empty text included, parses to no keywords. */
  lemma {:induction false} ParseBlank(text: JsString)
    requires forall i :: 0 <= i < |text| ==> text[i] == ',' || IsWhitespace(text[i])
    ensures ParseKeywords(text) == []
  {
    if ',' in text {
      var k :| 0 <= k < |text| && text[k] == ',';
      var a, b := text[..k], text[k + 1..];
      assert text == a + [','] + b;
      ParseAtComma(a, b);
      ParseBlank(a);
      ParseBlank(b);
    } else {
      ParseNoComma(text);
      TrimAllWhitespace(text);
    }
  }

  /** A well-formed keyword after leading whitespace parses to itself alone. */
  lemma ParseSingleKeyword(ws: JsString, k: JsString)
    requires AllWhitespace(ws)
    requires WellFormedKeyword(k)
    ensures ParseKeywords(ws + k) == [k]
  {
    assert ',' !in ws + k;
    TrimLeadingWhitespace(ws, k);
    ParseNoComma(ws + k);
  }

  /** The displayed text of a list of at least two keywords starts with the first and ", ". */
  lemma FormatCons(k: JsString, rest: seq<JsString>)
    requires rest != []
    ensures FormatKeywords([k] + rest) == k + ", " + FormatKeywords(rest)
  {
    assert ([k] + rest)[0] == k && ([k] + rest)[1..] == rest;
  }

  /** Moving the comma of ", " to its own place in a concatenation. */
  lemma Regroup(ws: JsString, k: JsString, tail: JsString)
    ensures ws + (k + ", " + tail) == (ws + k) + [','] + (" " + tail)
  {
  }

  /** The first keyword of a ", "-joined list, after leading whitespace, parses to itself. */
  lemma ParseFormattedHead(ws: JsString, k: JsString, rest: seq<JsString>)
    requires AllWhitespace(ws)
    requires WellFormedKeyword(k)
    ensures rest == [] ==> ParseKeywords(ws + FormatKeywords([k] + rest)) == [k]
    ensures rest != [] ==> ParseKeywords(ws + FormatKeywords([k] + rest)) == [k] + ParseKeywords(" " + FormatKeywords(rest))
  {
    ParseSingleKeyword(ws, k);
    if rest == [] {
      assert [k] + rest == [k];
      assert ws + FormatKeywords([k] + rest) == ws + k;
    } else {
      var tail := FormatKeywords(rest);
      FormatCons(k, rest);
      Regroup(ws, k, tail);
      ParseAtComma(ws + k, " " + tail);
    }
  }

  /** Leading whitespace before a ", "-joined list of keywords does not change what is parsed. */
  lemma {:induction false} ParseFormatted(ws: JsString, keywords: seq<JsString>)
    requires AllWhitespace(ws)
    requires WellFormed(keywords)
    ensures ParseKeywords(ws + FormatKeywords(keywords)) == keywords
    decreases keywords
  {
    if keywords == [] {
      assert ws + FormatKeywords(keywords) == ws;
      ParseBlank(ws);
    } else {
      var k, rest := keywords[0], keywords[1..];
      assert keywords == [k] + rest;
      ParseFormattedHead(ws, k, rest);
      if rest != [] {
        ParseFormatted(" ", rest);
      }
    }
  }

  /** Round trip: displaying well-formed keywords and reading the text back gives the same list. */
  lemma FormatParseRoundTrip(keywords: seq<JsString>)
    requires WellFormed(keywords)
    ensures ParseKeywords(FormatKeywords(keywords)) == keywords
  {
    ParseFormatted([], keywords);
    assert [] + FormatKeywords(keywords) == FormatKeywords(keywords);
  }

  /** Parsing is a normal form: displaying a parse and parsing again gives the same list. */
  lemma ParseFormatIdempotent(text: JsString)
    ensures ParseKeywords(FormatKeywords(ParseKeywords(text))) == ParseKeywords(text)
  {
    ParseWellFormed(text);
    FormatParseRoundTrip(ParseKeywords(text));
  }

  /** After a comma key-up the displayed text still parses to the keywords without the placeholder. */
  lemma PlaceholderReparse(keywords: seq<JsString>)
    requires WellFormed(keywords)
    ensures ParseKeywords(FormatKeywords(keywords + [" "])) == keywords
  {
    PlaceholderThenTyping(keywords, []);
    assert FormatKeywords(keywords + [" "]) + [] == FormatKeywords(keywords + [" "]);
    ParseBlank([]);
  }

  /** The separator's comma, then the separator's space and the placeholder in front of what follows. */
  lemma RegroupPlaceholder(f: JsString, typed: JsString)
    ensures f + ", " + " " + typed == f + [','] + ("  " + typed)
  {
  }

  /**
   * What the user types after the placeholder becomes the next keyword(s):
   * the placeholder's space, like any leading whitespace, is trimmed away.
   */
  lemma PlaceholderThenTyping(keywords: seq<JsString>, typed: JsString)
    requires WellFormed(keywords)
    ensures ParseKeywords(FormatKeywords(keywords + [" "]) + typed) == keywords + ParseKeywords(typed)
  {
    ParseLeadingWhitespace("  ", typed);
    if keywords == [] {
      assert keywords + [" "] == [" "];
      ParseLeadingWhitespace(" ", typed);
    } else {
      var f := FormatKeywords(keywords);
      JoinSnoc(keywords, " ", ", ");
      RegroupPlaceholder(f, typed);
      ParseAtComma(f, "  " + typed);
      FormatParseRoundTrip(keywords);
    }
  }

  /** Whitespace in front of any text does not change what is parsed. */
  lemma {:induction false} ParseLeadingWhitespace(ws: JsString, text: JsString)
    requires AllWhitespace(ws)
    ensures ParseKeywords(ws + text) == ParseKeywords(text)
  {
    if ',' in text {
      var k :| 0 <= k < |text| && text[k] == ',';
      var a, b := text[..k], text[k + 1..];
      assert text == a + [','] + b;
      assert ws + text == (ws + a) + [','] + b;
      ParseAtComma(ws + a, b);
      ParseAtComma(a, b);
      ParseLeadingWhitespace(ws, a);
    } else {
      assert ',' !in ws + text;
      ParseNoComma(ws + text);
      ParseNoComma(text);
      TrimLeadingWhitespace(ws, text);
    }
  }

  // Properties of the edit state.

  /** Replaying two runs of events one after the other is replaying their concatenation. */
  lemma {:induction false} SavedAppend(article: Article, e1: seq<EditEvent>, e2: seq<EditEvent>)
    ensures Saved(article, e1 + e2) == Saved(Saved(article, e1), e2)
    decreases e1
  {
    if e1 == [] {
      assert e1 + e2 == e2;
    } else {
      assert (e1 + e2)[0] == e1[0] && (e1 + e2)[1..] == e1[1..] + e2;
      SavedAppend(Apply(article, e1[0]), e1[1..], e2);
    }
  }

  /** Without a name event the saved name is the original name. */
  lemma {:induction false} NameOnlyByNameEvents(article: Article, events: seq<EditEvent>)
    requires forall i :: 0 <= i < |events| ==> !events[i].NameChanged?
    ensures Saved(article, events).name == article.name
    decreases events
  {
    if events != [] {
      NameOnlyByNameEvents(Apply(article, events[0]), events[1..]);
    }
  }

  /** Without a keyword edit and without a comma key-up the saved keywords are the original keywords. */
  lemma {:induction false} KeywordsOnlyByKeywordEvents(article: Article, events: seq<EditEvent>)
    requires forall i :: 0 <= i < |events| ==> !events[i].KeywordsChanged? && !(events[i].KeywordsKeyUp? && events[i].key == ",")
    ensures Saved(article, events).keywords == article.keywords
    decreases events
  {
    if events != [] {
      KeywordsOnlyByKeywordEvents(Apply(article, events[0]), events[1..]);
    }
  }

  /** Without a target-amount event the saved target amount is the original one. */
  lemma {:induction false} TargetAmountOnlyByItsEvents(article: Article, events: seq<EditEvent>)
    requires forall i :: 0 <= i < |events| ==> !events[i].TargetAmountChanged?
    ensures Saved(article, events).targetAmount == article.targetAmount
    decreases events
  {
    if events != [] {
      TargetAmountOnlyByItsEvents(Apply(article, events[0]), events[1..]);
    }
  }

  /** The last name typed is the name saved, whatever other inputs follow it. */
  lemma LastNameWins(article: Article, before: seq<EditEvent>, value: JsString, after: seq<EditEvent>)
    requires forall i :: 0 <= i < |after| ==> !after[i].NameChanged?
    ensures Saved(article, before + [NameChanged(value)] + after).name == value
  {
    SavedAppend(article, before + [NameChanged(value)], after);
    SavedAppend(article, before, [NameChanged(value)]);
    NameOnlyByNameEvents(Saved(article, before + [NameChanged(value)]), after);
  }

  /**
   * Nothing removes the placeholder before saving: typing a comma-terminated
   * text, releasing the comma key and then saving hands back the parsed
   * keywords followed by " ", which is not a well-formed keyword.
   */
  lemma PlaceholderCanBeSaved(article: Article, text: JsString)
    ensures Saved(article, [KeywordsChanged(text), KeywordsKeyUp(",")]).keywords == ParseKeywords(text) + [" "]
    ensures !WellFormed(Saved(article, [KeywordsChanged(text), KeywordsKeyUp(",")]).keywords)
  {
    var events := [KeywordsChanged(text), KeywordsKeyUp(",")];
    var edited := OnKeywordsChange(article, text);
    assert events[1..] == [KeywordsKeyUp(",")];
    assert [KeywordsKeyUp(",")][1..] == [];
    assert Saved(article, events) == OnKeywordsKeyUp(edited, ",");
    var r := Saved(article, events).keywords;
    assert r[|r| - 1] == " ";
    assert !WellFormedKeyword(r[|r| - 1]);
  }
}
