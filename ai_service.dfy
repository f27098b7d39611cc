/**
 * The text handling around the language-model calls (src/utils/aiService.ts).
 * The HTTP request, the response body and `JSON.parse` are outside the model:
 * what the request gave back is a `Reply`, and the parser is a parameter
 * that yields a parsed value or the message of the error it throws.
 */
module AiService {
  import opened Types
  import opened Strings

  const Fence: string := "```"
  const MaxTasks: nat := 10
  const MaxTitle: nat := 100

  // ---------------------------------------------------------------------------
  // Cleaning the model's text

  /**
   * `s.replace(/```tag\n?/g, '')`: every fence with the tag, and the line
   * break right after it, removed in one left-to-right scan.
   */
  function RemoveFences(s: string, tag: string): (r: string)
    ensures |r| <= |s|
    decreases |s|
  {
    var marker := Fence + tag;
    if StartsWith(s, marker) then
      var rest := s[|marker|..];
      RemoveFences(if rest != [] && rest[0] == '\n' then rest[1..] else rest, tag)
    else if s == [] then []
    else [s[0]] + RemoveFences(s[1..], tag)
  }

  /** The text handed to JSON.parse: "```json" fences, then bare "```" fences, removed, then trimmed. */
  function CleanText(text: string): (r: string)
    ensures r == [] || (!IsSpace(r[0]) && !IsSpace(r[|r| - 1]))
  {
    Trim(RemoveFences(RemoveFences(text, "json"), ""))
  }

  /** A text without backquotes passes the fence removal unchanged. */
  lemma {:induction false} NoFenceUnchanged(a: string, b: string, tag: string)
    requires '`' !in a
    ensures RemoveFences(a + b, tag) == a + RemoveFences(b, tag)
    decreases |a|
  {
    if a != [] {
      var s := a + b;
      assert s[0] == a[0];
      assert !StartsWith(s, Fence + tag) by {
        assert (Fence + tag)[0] == '`';
      }
      assert s[1..] == a[1..] + b;
      NoFenceUnchanged(a[1..], b, tag);
    } else {
      assert a + b == b;
    }
  }

  /** A reply fenced as a JSON code block is cleaned down to its trimmed body. */
  lemma FencedReplyCleaned(body: string)
    requires '`' !in body
    ensures CleanText("```json\n" + body + "\n```") == Trim(body)
  {
    var s := "```json\n" + body + "\n```";
    var tail := "\n```";
    assert StartsWith(s, Fence + "json");
    assert s[|Fence + "json"|..] == "\n" + body + tail;
    assert ("\n" + body + tail)[1..] == body + tail;
    NoFenceUnchanged(body, tail, "json");
    assert RemoveFences(tail, "json") == tail by {
      assert !StartsWith(tail, Fence + "json");
      assert tail[1..] == Fence;
      assert !StartsWith(Fence, Fence + "json");
      assert Fence[1..] == "``" && Fence[1..][1..] == "`" && Fence[1..][1..][1..] == "";
    }
    assert RemoveFences(s, "json") == body + tail;
    NoFenceUnchanged(body, tail, "");
    assert RemoveFences(tail, "") == "\n" by {
      assert !StartsWith(tail, Fence + "");
      assert tail[1..] == Fence + "";
      assert RemoveFences(Fence, "") == [];
    }
    TrimTrailingNewline(body);
  }

  lemma TrimTrailingNewline(body: string)
    ensures Trim(body + "\n") == Trim(body)
  {
    TrimStartAppend(body, "\n");
    var t := TrimStart(body);
    if AllSpace(body) {
      assert AllSpace(body + "\n");
    } else {
      assert TrimStart(body + "\n") == t + "\n";
      assert (t + "\n")[..|t|] == t;
    }
  }

  lemma {:induction false} TrimStartAppend(a: string, b: string)
    ensures !AllSpace(a) ==> TrimStart(a + b) == TrimStart(a) + b
    decreases |a|
  {
    if a != [] && !AllSpace(a) {
      assert (a + b)[0] == a[0];
      if IsSpace(a[0]) {
        assert (a + b)[1..] == a[1..] + b;
        assert !AllSpace(a[1..]) by {
          var i :| 0 <= i < |a| && !IsSpace(a[i]);
          assert a[1..][i - 1] == a[i];
        }
        TrimStartAppend(a[1..], b);
      }
    }
  }

  // ---------------------------------------------------------------------------
  // Sanitising the parsed list

  /** What JSON.parse produced: only strings and arrays matter here. */
  datatype Json = JString(s: string) | JOther
  datatype Parsed = ParsedArray(items: seq<Json>) | ParsedOther

  /** `typeof task === 'string' && task.trim().length > 0` */
  predicate Usable(j: Json) {
    j.JString? && Trim(j.s) != []
  }

  /** `task.trim().substring(0, 100)` */
  function TitleOf(s: string): (t: string)
    requires Trim(s) != []
    ensures t != [] && |t| <= MaxTitle && !IsSpace(t[0])
    ensures |t| == (if |Trim(s)| <= MaxTitle then |Trim(s)| else MaxTitle) && t == Trim(s)[..|t|]
    ensures Tidy(s) ==> t == s
  {
    Prefix(Trim(s), MaxTitle)
  }

  /** A title already in its final form: non-empty, at most 100 characters, no white space at either end. */
  predicate Tidy(t: string) {
    t != [] && |t| <= MaxTitle && !IsSpace(t[0]) && !IsSpace(t[|t| - 1])
  }

  /** The filter and map: usable strings, trimmed and cut to 100 characters, in order. */
  function Cleaned(items: seq<Json>): (r: seq<string>)
    ensures |r| <= |items|
  {
    if items == [] then [] else Entry(items[0]) + Cleaned(items[1..])
  }

  /** What one array element contributes: its title, or nothing. */
  function Entry(j: Json): (r: seq<string>)
    ensures |r| <= 1 && (r != [] ==> GoodTitle(r[0]))
    ensures Usable(j) <==> r != []
    ensures Usable(j) ==> r == [TitleOf(j.s)]
  {
    if Usable(j) then [TitleOf(j.s)] else []
  }

  /** A title that survives cleaning is non-empty, at most 100 characters, and starts with no white space. */
  predicate GoodTitle(t: string) {
    t != [] && |t| <= MaxTitle && !IsSpace(t[0])
  }

  lemma {:induction false} CleanedTitles(items: seq<Json>)
    ensures forall t :: t in Cleaned(items) ==> GoodTitle(t)
  {
    if items != [] {
      CleanedTitles(items[1..]);
      assert Cleaned(items) == Entry(items[0]) + Cleaned(items[1..]);
    }
  }

  /** A title is kept exactly when some usable element of the array trims and cuts to it. */
  lemma {:induction false} CleanedMembers(items: seq<Json>, t: string)
    ensures t in Cleaned(items) <==>
      exists i :: 0 <= i < |items| && Usable(items[i]) && t == TitleOf(items[i].s)
  {
    if items != [] {
      CleanedMembers(items[1..], t);
      assert Cleaned(items) == Entry(items[0]) + Cleaned(items[1..]);
      if t in Cleaned(items) && !(t in Entry(items[0])) {
        var i :| 0 <= i < |items[1..]| && Usable(items[1..][i]) && t == TitleOf(items[1..][i].s);
        assert items[i + 1] == items[1..][i];
      }
      if exists i :: 0 <= i < |items| && Usable(items[i]) && t == TitleOf(items[i].s) {
        var i :| 0 <= i < |items| && Usable(items[i]) && t == TitleOf(items[i].s);
        if i > 0 {
          assert items[1..][i - 1] == items[i];
        }
      }
    }
  }

  /** The pipeline keeps input order: cleaning a concatenation cleans each part. */
  lemma {:induction false} CleanedAppend(a: seq<Json>, b: seq<Json>)
    ensures Cleaned(a + b) == Cleaned(a) + Cleaned(b)
    decreases |a|
  {
    if a == [] {
      assert a + b == b;
    } else {
      var ab := a + b;
      assert ab[0] == a[0] && ab[1..] == a[1..] + b;
      CleanedAppend(a[1..], b);
      calc {
        Cleaned(ab);
        Entry(a[0]) + Cleaned(a[1..] + b);
        Entry(a[0]) + (Cleaned(a[1..]) + Cleaned(b));
        (Entry(a[0]) + Cleaned(a[1..])) + Cleaned(b);
      }
    }
  }

  function AsJson(titles: seq<string>): (r: seq<Json>)
    ensures |r| == |titles| && forall i :: 0 <= i < |r| ==> r[i] == JString(titles[i])
  {
    if titles == [] then [] else [JString(titles[0])] + AsJson(titles[1..])
  }

  /** Titles that are already trimmed, non-empty and short come through unchanged. */
  lemma {:induction false} CleanedKeepsGoodTitles(titles: seq<string>)
    requires forall i :: 0 <= i < |titles| ==> Tidy(titles[i])
    ensures Cleaned(AsJson(titles)) == titles
  {
    if titles != [] {
      var js := AsJson(titles);
      var t := titles[0];
      assert js[0] == JString(t) && js[1..] == AsJson(titles[1..]);
      assert Entry(js[0]) == [t];
      CleanedKeepsGoodTitles(titles[1..]);
      assert titles == [t] + titles[1..];
    }
  }

  /** The returned list: the cleaned titles, cut to ten. */
  function Sanitize(items: seq<Json>): (r: seq<string>)
    ensures |r| <= MaxTasks && |r| <= |Cleaned(items)|
    ensures r == Cleaned(items)[..|r|]
  {
    Prefix(Cleaned(items), MaxTasks)
  }

  /** The returned list holds the first cleaned titles: all of them, or the first ten. */
  lemma SanitizeKeepsFirst(items: seq<Json>)
    ensures var r := Sanitize(items);
      && |r| <= MaxTasks && |r| <= |Cleaned(items)| && r == Cleaned(items)[..|r|]
      && (|r| == MaxTasks || r == Cleaned(items))
  {
  }

  // ---------------------------------------------------------------------------
  // convertParagraphToTasks

  const MissingKeyMessage: string := "API key" + " bulunamadı. Lütfen .env dosyasını kontrol edin."
  const NoTextMessage: string := "AI yanıt üretemedi"
  const InvalidListMessage: string := "Geçersiz görev listesi"
  const RequestFailedPrefix: string := "API isteği başarısız: "

  const InvalidKeyText: string := "API anahtarı geçersiz"
  const UnreadableText: string := "AI yanıtı işlenemedi"
  const ConnectionText: string := "İnternet bağlantısı hatası"
  const GenericText: string := "AI ile iletişim kurulamadı"

  /** What the request gave back. */
  datatype Reply =
    | FetchFailed(message: string)                          // fetch rejected
    | HttpError(status: nat, bodyError: Option<string>)     // !response.ok; reading the error body may throw
    | BodyUnreadable(message: string)                       // response.json() threw
    | Answered(text: Option<string>)                        // candidates[0].content.parts[0].text, if any

  /** The catch block: the first matching rule picks the user-facing text. */
  function MapError(message: string): (r: string)
    ensures r == InvalidKeyText || r == UnreadableText || r == ConnectionText || r == GenericText
  {
    if Contains(message, "API key") then InvalidKeyText
    else if Contains(message, "JSON") then UnreadableText
    else if Contains(message, "network") || Contains(message, "fetch") then ConnectionText
    else GenericText
  }

  /** The try block: the list it returns, or the message of the error it throws. */
  function Attempt(reply: Reply, parse: string -> Result<Parsed>): (r: Result<seq<string>>)
    ensures r.Ok? ==> |r.value| <= MaxTasks
  {
    match reply
    case FetchFailed(m) => Err(m)
    case HttpError(status, bodyError) =>
      if bodyError.Some? then Err(bodyError.value) else Err(RequestFailedPrefix + NatToString(status))
    case BodyUnreadable(m) => Err(m)
    case Answered(text) =>
      if text.None? || text.value == "" then Err(NoTextMessage)
      else
        match parse(CleanText(text.value))
        case Err(m) => Err(m)
        case Ok(ParsedOther) => Err(InvalidListMessage)
        case Ok(ParsedArray(items)) =>
          if items == [] then Err(InvalidListMessage) else Ok(Sanitize(items))
  }

  /** convertParagraphToTasks: the key is checked before the try block, so its error is not mapped. */
  function ConvertParagraphToTasks(hasKey: bool, reply: Reply, parse: string -> Result<Parsed>): (r: Result<seq<string>>)
    ensures !hasKey ==> r == Err(MissingKeyMessage)
    ensures hasKey && Attempt(reply, parse).Err? ==> r == Err(MapError(Attempt(reply, parse).message))
    ensures r.Ok? <==> hasKey && Attempt(reply, parse).Ok?
    ensures r.Ok? ==> r == Attempt(reply, parse)
  {
    if !hasKey then Err(MissingKeyMessage)
    else
      match Attempt(reply, parse)
      case Ok(tasks) => Ok(tasks)
      case Err(m) => Err(MapError(m))
  }

  /** Had the missing-key error been thrown inside the try, it would have read "API anahtarı geçersiz". */
  lemma MissingKeyNotRemapped(reply: Reply, parse: string -> Result<Parsed>)
    ensures ConvertParagraphToTasks(false, reply, parse) == Err(MissingKeyMessage)
    ensures MapError(MissingKeyMessage) == InvalidKeyText
  {
    ContainsAt(MissingKeyMessage, "API key", 0);
  }

  /** A successful answer is at most ten non-blank titles of at most 100 characters each, taken in order from a non-empty parsed array. */
  lemma ResultShape(hasKey: bool, reply: Reply, parse: string -> Result<Parsed>)
    requires ConvertParagraphToTasks(hasKey, reply, parse).Ok?
    ensures var tasks := ConvertParagraphToTasks(hasKey, reply, parse).value;
      && |tasks| <= MaxTasks
      && (forall t :: t in tasks ==> GoodTitle(t))
      && reply.Answered? && reply.text.Some?
      && (exists items :: parse(CleanText(reply.text.value)) == Ok(ParsedArray(items)) && items != [] && tasks == Sanitize(items))
  {
    var r := Attempt(reply, parse);
    assert r.Ok?;
    var cleaned := CleanText(reply.text.value);
    var items := parse(cleaned).value.items;
    assert r.value == Sanitize(items);
    SanitizeKeepsFirst(items);
    CleanedTitles(items);
    forall t | t in r.value
      ensures t in Cleaned(items)
    {
      var k :| 0 <= k < |r.value| && r.value[k] == t;
      assert Cleaned(items)[k] == t;
    }
  }

  /** A parsed value that is not an array, or an empty array, ends in the generic message. */
  lemma InvalidListIsGeneric(reply: Reply, parse: string -> Result<Parsed>)
    requires reply.Answered? && reply.text.Some? && reply.text.value != ""
    requires parse(CleanText(reply.text.value)) in {Ok(ParsedOther), Ok(ParsedArray([]))}
    ensures ConvertParagraphToTasks(true, reply, parse) == Err(GenericText)
  {
    InvalidListAttempt(reply, parse);
    MessageLetters();
    UnmatchedErrorIsGeneric(reply, parse);
  }

  lemma InvalidListAttempt(reply: Reply, parse: string -> Result<Parsed>)
    requires reply.Answered? && reply.text.Some? && reply.text.value != ""
    requires parse(CleanText(reply.text.value)) in {Ok(ParsedOther), Ok(ParsedArray([]))}
    ensures Attempt(reply, parse) == Err(InvalidListMessage)
  {
  }

  /** An answer without text ends in the generic message as well. */
  lemma NoTextIsGeneric(reply: Reply, parse: string -> Result<Parsed>)
    requires reply.Answered? && (reply.text.None? || reply.text.value == "")
    ensures ConvertParagraphToTasks(true, reply, parse) == Err(GenericText)
  {
    assert Attempt(reply, parse) == Err(NoTextMessage);
    MessageLetters();
    UnmatchedErrorIsGeneric(reply, parse);
  }

  /** The two messages the try block throws itself name neither the key, JSON, the network nor fetch. */
  lemma MessageLetters()
    ensures 'k' !in InvalidListMessage && 'J' !in InvalidListMessage && 'w' !in InvalidListMessage && 'f' !in InvalidListMessage
    ensures 'k' !in NoTextMessage && 'J' !in NoTextMessage && 'w' !in NoTextMessage && 'f' !in NoTextMessage
  {
    LettersAbsent(InvalidListMessage);
    LettersAbsent(NoTextMessage);
  }

  lemma {:induction false} LettersAbsent(m: string)
    requires forall k :: 0 <= k < |m| ==> m[k] != 'k' && m[k] != 'J' && m[k] != 'w' && m[k] != 'f'
    ensures 'k' !in m && 'J' !in m && 'w' !in m && 'f' !in m
  {
  }

  /** An error whose message matches no rule of the catch block reaches the user as the generic text. */
  lemma UnmatchedErrorIsGeneric(reply: Reply, parse: string -> Result<Parsed>)
    requires Attempt(reply, parse).Err?
    requires var m := Attempt(reply, parse).message; 'k' !in m && 'J' !in m && 'w' !in m && 'f' !in m
    ensures ConvertParagraphToTasks(true, reply, parse) == Err(GenericText)
  {
    GenericWhenUnmatched(Attempt(reply, parse).message);
  }

  /** A message holding none of the letters 'k', 'J', 'w', 'f' matches no rule of the catch block. */
  lemma GenericWhenUnmatched(m: string)
    requires 'k' !in m && 'J' !in m && 'w' !in m && 'f' !in m
    ensures MapError(m) == GenericText
  {
    if Contains(m, "API key") { ContainsChars(m, "API key", 4); }
    if Contains(m, "JSON") { ContainsChars(m, "JSON", 0); }
    if Contains(m, "network") { ContainsChars(m, "network", 3); }
    if Contains(m, "fetch") { ContainsChars(m, "fetch", 0); }
  }

  /**
   * A request the server refuses (a rejected key included) reaches the user as the generic text:
   * "API isteği başarısız: <status>" names "API" but not "API key".
   */
  lemma HttpFailureIsGeneric(status: nat, parse: string -> Result<Parsed>)
    ensures ConvertParagraphToTasks(true, HttpError(status, None), parse) == Err(GenericText)
  {
    var digits := NatToString(status);
    var m := RequestFailedPrefix + digits;
    assert Attempt(HttpError(status, None), parse) == Err(m);
    assert forall k :: 0 <= k < |digits| ==> IsDigit(digits[k]);
    LettersAbsent(RequestFailedPrefix);
    LettersAbsent(digits);
    assert 'k' !in m && 'J' !in m && 'w' !in m && 'f' !in m;
    UnmatchedErrorIsGeneric(HttpError(status, None), parse);
  }

  /**
   * The rules match case-sensitively: a fetch that rejects with "Network request failed"
   * (capital N, no "fetch") reaches the user as the generic text, not the connection text.
   */
  lemma NetworkRequestFailedIsGeneric(parse: string -> Result<Parsed>)
    ensures ConvertParagraphToTasks(true, FetchFailed(NetworkFailure), parse) == Err(GenericText)
  {
    assert 'A' !in NetworkFailure && 'J' !in NetworkFailure && 'n' !in NetworkFailure && 'h' !in NetworkFailure by {
      assert forall k :: 0 <= k < |NetworkFailure| ==>
        NetworkFailure[k] != 'A' && NetworkFailure[k] != 'J' && NetworkFailure[k] != 'n' && NetworkFailure[k] != 'h';
    }
    GenericWithoutCapitalA(NetworkFailure);
  }

  /** React Native's fetch rejects with this message when the request cannot be made. */
  const NetworkFailure: string := "Network request failed"

  /** A message holding none of 'A', 'J', 'n', 'h' matches no rule of the catch block. */
  lemma GenericWithoutCapitalA(m: string)
    requires 'A' !in m && 'J' !in m && 'n' !in m && 'h' !in m
    ensures MapError(m) == GenericText
  {
    if Contains(m, "API key") { ContainsChars(m, "API key", 0); }
    if Contains(m, "JSON") { ContainsChars(m, "JSON", 0); }
    if Contains(m, "network") { ContainsChars(m, "network", 0); }
    if Contains(m, "fetch") { ContainsChars(m, "fetch", 4); }
  }

  /** The emptiness check comes before the filter: a list of blank strings succeeds with no task. */
  lemma BlankListGivesNoTasks(reply: Reply, parse: string -> Result<Parsed>, blanks: seq<string>)
    requires reply.Answered? && reply.text.Some? && reply.text.value != ""
    requires blanks != [] && forall i :: 0 <= i < |blanks| ==> AllSpace(blanks[i])
    requires parse(CleanText(reply.text.value)) == Ok(ParsedArray(AsJson(blanks)))
    ensures ConvertParagraphToTasks(true, reply, parse) == Ok([])
  {
    var items := AsJson(blanks);
    assert items != [] && Sanitize(items) == [] by {
      BlankCleaned(blanks);
    }
    ArrayAttempt(reply, parse, items);
  }

  lemma ArrayAttempt(reply: Reply, parse: string -> Result<Parsed>, items: seq<Json>)
    requires reply.Answered? && reply.text.Some? && reply.text.value != ""
    requires items != [] && parse(CleanText(reply.text.value)) == Ok(ParsedArray(items))
    ensures ConvertParagraphToTasks(true, reply, parse) == Ok(Sanitize(items))
  {
    assert Attempt(reply, parse) == Ok(Sanitize(items));
  }

  lemma {:induction false} BlankCleaned(blanks: seq<string>)
    requires forall i :: 0 <= i < |blanks| ==> AllSpace(blanks[i])
    ensures Cleaned(AsJson(blanks)) == []
  {
    if blanks != [] {
      var js := AsJson(blanks);
      assert js[0] == JString(blanks[0]) && js[1..] == AsJson(blanks[1..]);
      assert Entry(js[0]) == [];
      BlankCleaned(blanks[1..]);
    }
  }

  /** A parse error whose message names JSON, and not the key, reaches the user as "AI yanıtı işlenemedi". */
  lemma ParseErrorIsUnreadable(reply: Reply, parse: string -> Result<Parsed>)
    requires reply.Answered? && reply.text.Some? && reply.text.value != ""
    requires parse(CleanText(reply.text.value)).Err?
    requires var m := parse(CleanText(reply.text.value)).message; Contains(m, "JSON") && !Contains(m, "API key")
    ensures ConvertParagraphToTasks(true, reply, parse) == Err(UnreadableText)
  {
    var m := parse(CleanText(reply.text.value)).message;
    ParseErrorAttempt(reply, parse);
    assert MapError(m) == UnreadableText;
  }

  lemma ParseErrorAttempt(reply: Reply, parse: string -> Result<Parsed>)
    requires reply.Answered? && reply.text.Some? && reply.text.value != ""
    requires parse(CleanText(reply.text.value)).Err?
    ensures Attempt(reply, parse) == Err(parse(CleanText(reply.text.value)).message)
  {
  }

  // ---------------------------------------------------------------------------
  // correctVoiceTranscript

  /** What the correction request gave back. */
  datatype VoiceReply =
    | VoiceFailed                        // fetch, or reading the body, threw
    | VoiceNotOk                         // !response.ok
    | VoiceAnswered(text: Option<string>) // the answer's text, if it is a string

  /** correctVoiceTranscript: the trimmed answer when there is one, otherwise the raw transcript. */
  function CorrectVoiceTranscript(hasKey: bool, reply: VoiceReply, raw: string): (r: string)
    ensures !hasKey || !reply.VoiceAnswered? || reply.text.None? ==> r == raw
    ensures hasKey && reply.VoiceAnswered? && reply.text.Some? ==>
      r == (if AllSpace(reply.text.value) then raw else Trim(reply.text.value))
  {
    if !hasKey then raw
    else
      match reply
      case VoiceFailed => raw
      case VoiceNotOk => raw
      case VoiceAnswered(text) =>
        var corrected := if text.Some? then Trim(text.value) else "";
        if corrected != "" then corrected else raw
  }

  /** The corrected transcript is never blank unless the raw one was. */
  lemma CorrectionNeverBlanks(hasKey: bool, reply: VoiceReply, raw: string)
    requires !AllSpace(raw)
    ensures !AllSpace(CorrectVoiceTranscript(hasKey, reply, raw))
  {
    var r := CorrectVoiceTranscript(hasKey, reply, raw);
    if r != raw {
      assert r != [] && !IsSpace(r[0]);
    }
  }
}
