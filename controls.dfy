/**
 * The input bar (src/app/components/Controls.tsx): the language table and
 * its display lookup, the typed-text state with send, Enter and the action
 * button, the textarea's shown value, and the language swap, which works
 * on the page's state through its setters.
 */
module Controls {

  import opened Wrappers
  import opened JsText
  import Home

  datatype Language = Language(code: string, name: string, flag: string)

  /** `LANGUAGES`; each flag is a pair of regional-indicator symbols. */
  const Languages: seq<Language> := [
    Language("en-US", "English", "\U{1F1FA}\U{1F1F8}"),
    Language("es-ES", "Spanish", "\U{1F1EA}\U{1F1F8}"),
    Language("fr-FR", "French", "\U{1F1EB}\U{1F1F7}"),
    Language("de-DE", "German", "\U{1F1E9}\U{1F1EA}"),
    Language("hi-IN", "Hindi", "\U{1F1EE}\U{1F1F3}"),
    Language("it-IT", "Italian", "\U{1F1EE}\U{1F1F9}"),
    Language("ja-JP", "Japanese", "\U{1F1EF}\U{1F1F5}"),
    Language("ko-KR", "Korean", "\U{1F1F0}\U{1F1F7}"),
    Language("pt-BR", "Portuguese", "\U{1F1E7}\U{1F1F7}"),
    Language("ru-RU", "Russian", "\U{1F1F7}\U{1F1FA}"),
    Language("zh-CN", "Chinese (Mandarin)", "\U{1F1E8}\U{1F1F3}"),
    Language("ar-SA", "Arabic", "\U{1F1F8}\U{1F1E6}"),
    Language("nl-NL", "Dutch", "\U{1F1F3}\U{1F1F1}"),
    Language("pl-PL", "Polish", "\U{1F1F5}\U{1F1F1}"),
    Language("sv-SE", "Swedish", "\U{1F1F8}\U{1F1EA}"),
    Language("tr-TR", "Turkish", "\U{1F1F9}\U{1F1F7}")
  ]

  /** No two entries share a code. */
  predicate DistinctCodes(table: seq<Language>) {
    forall i, j :: 0 <= i < j < |table| ==> table[i].code != table[j].code
  }

  /** Entry `i` differs in code from every later entry. */
  lemma CodesDistinctFrom(i: nat)
    requires i < |Languages|
    ensures forall j :: i < j < |Languages| ==> Languages[i].code != Languages[j].code
  {
    if i == 0 { assert forall j :: 0 < j < 16 ==> Languages[0].code != Languages[j].code; }
    else if i == 1 { assert forall j :: 1 < j < 16 ==> Languages[1].code != Languages[j].code; }
    else if i == 2 { assert forall j :: 2 < j < 16 ==> Languages[2].code != Languages[j].code; }
    else if i == 3 { assert forall j :: 3 < j < 16 ==> Languages[3].code != Languages[j].code; }
    else if i == 4 { assert forall j :: 4 < j < 16 ==> Languages[4].code != Languages[j].code; }
    else if i == 5 { assert forall j :: 5 < j < 16 ==> Languages[5].code != Languages[j].code; }
    else if i == 6 { assert forall j :: 6 < j < 16 ==> Languages[6].code != Languages[j].code; }
    else if i == 7 { assert forall j :: 7 < j < 16 ==> Languages[7].code != Languages[j].code; }
    else if i == 8 { assert forall j :: 8 < j < 16 ==> Languages[8].code != Languages[j].code; }
    else if i == 9 { assert forall j :: 9 < j < 16 ==> Languages[9].code != Languages[j].code; }
    else if i == 10 { assert forall j :: 10 < j < 16 ==> Languages[10].code != Languages[j].code; }
    else if i == 11 { assert forall j :: 11 < j < 16 ==> Languages[11].code != Languages[j].code; }
    else if i == 12 { assert forall j :: 12 < j < 16 ==> Languages[12].code != Languages[j].code; }
    else if i == 13 { assert forall j :: 13 < j < 16 ==> Languages[13].code != Languages[j].code; }
    else if i == 14 { assert forall j :: 14 < j < 16 ==> Languages[14].code != Languages[j].code; }
  }

  /** The table has sixteen entries with pairwise distinct codes, and no flag contains a space. */
  lemma LanguageTableWellFormed()
    ensures |Languages| == 16
    ensures DistinctCodes(Languages)
    ensures forall i :: 0 <= i < |Languages| ==> ' ' !in Languages[i].flag
  {
    forall i, j | 0 <= i < j < |Languages| ensures Languages[i].code != Languages[j].code {
      CodesDistinctFrom(i);
    }
  }

  /** `table.find(l => l.code === code)`, as the index of the first entry with that code. */
  function FindCode(table: seq<Language>, code: string): (r: Option<nat>)
    ensures r.Some? ==> r.value < |table| && table[r.value].code == code
    ensures r.Some? ==> forall j :: 0 <= j < r.value ==> table[j].code != code
    ensures r.None? ==> forall j :: 0 <= j < |table| ==> table[j].code != code
  {
    if table == [] then None
    else if table[0].code == code then Some(0)
    else match FindCode(table[1..], code)
      case None => None
      case Some(k) => Some(k + 1)
  }

  /** With distinct codes, the lookup finds exactly the entry that has the code. */
  lemma {:induction false} FindCodeUnique(table: seq<Language>, i: nat)
    requires DistinctCodes(table) && i < |table|
    ensures FindCode(table, table[i].code) == Some(i)
  {
    var r := FindCode(table, table[i].code);
    assert r.Some?;
    assert r.value <= i;
  }

  /** `getLanguageDisplay(code)`: "flag name" for a code in the table, otherwise the code itself. */
  function LanguageDisplay(code: string): (r: string)
    ensures (forall j :: 0 <= j < |Languages| ==> Languages[j].code != code) ==> r == code
  {
    match FindCode(Languages, code)
    case Some(i) => Languages[i].flag + " " + Languages[i].name
    case None => code
  }

  /** Every table entry is displayed as its own flag and name. */
  lemma DisplayOfTableEntry(i: nat)
    requires i < |Languages|
    ensures LanguageDisplay(Languages[i].code) == Languages[i].flag + " " + Languages[i].name
  {
    LanguageTableWellFormed();
    FindCodeUnique(Languages, i);
  }

  // ------------------------------------------------------------- input state

  /** What the action button does: send when the typed text is not blank, else toggle listening. */
  datatype ButtonAction = Send | ToggleListening

  function ActionFor(text: string): (a: ButtonAction)
    ensures a == Send <==> !IsBlank(text)
  {
    if Trim(text) != [] then Send else ToggleListening
  }

  /** What `handleSend` passes to `onSendText`: the trimmed text, unless it is blank. */
  function SendPayload(text: string): (r: Option<string>)
    ensures r.None? <==> IsBlank(text)
    ensures r.Some? ==> r.value != [] && Trimmed(r.value) && r.value == Trim(text)
  {
    var t := Trim(text);
    if t != [] then Some(t) else None
  }

  /** The textarea: it shows the interim transcript while listening, and is then disabled. */
  datatype Textarea = Textarea(value: string, disabled: bool, placeholder: string)

  /** The placeholder: the second space-separated piece of the language display, "undefined" if none. */
  function Placeholder(isListening: bool, fromLanguage: string): string {
    if isListening then "Listening... Speak clearly"
    else
      var piece := SecondPiece(LanguageDisplay(fromLanguage), ' ');
      "Type in " + (if piece.Some? then piece.value else "undefined") + "..."
  }

  function TextareaFor(isListening: bool, interimTranscript: string, text: string,
                       fromLanguage: string): (t: Textarea)
    ensures t.disabled <==> isListening
    ensures isListening ==> t.value == interimTranscript && t.placeholder == "Listening... Speak clearly"
    ensures !isListening ==> t.value == text && t.placeholder == Placeholder(false, fromLanguage)
  {
    Textarea(if isListening then interimTranscript else text, isListening, Placeholder(isListening, fromLanguage))
  }

  /** For a table language the placeholder names the first word of its name ("Chinese" for "Chinese (Mandarin)"). */
  lemma PlaceholderForTableEntry(i: nat)
    requires i < |Languages|
    ensures Placeholder(false, Languages[i].code) == "Type in " + BeforeFirst(Languages[i].name, ' ') + "..."
  {
    var l := Languages[i];
    DisplayOfTableEntry(i);
    LanguageTableWellFormed();
    var shown := l.flag + " " + l.name;
    BeforeFirstUnique(shown, ' ', l.flag);
    assert shown[|l.flag| + 1..] == l.name;
  }

  /** An unknown code without a space gives the placeholder "Type in undefined...". */
  lemma PlaceholderForUnknownCode(code: string)
    requires forall j :: 0 <= j < |Languages| ==> Languages[j].code != code
    requires ' ' !in code
    ensures Placeholder(false, code) == "Type in undefined..."
  {
  }

  /** The component's own state: the typed text. */
  class TextInput {
    var text: string

    constructor ()
      ensures text == []
    {
      text := [];
    }

    /** The textarea's `onChange`. */
    method SetText(value: string)
      modifies this
      ensures text == value
    {
      text := value;
    }

    /** `handleSend`: send the trimmed text and clear the input, or do nothing for blank input. */
    method HandleSend() returns (sent: Option<string>)
      modifies this
      ensures sent == SendPayload(old(text))
      ensures text == if sent.Some? then [] else old(text)
    {
      var t := Trim(text);
      sent := None;
      if t != [] {
        sent := Some(t);
        text := [];
      }
    }

    /** `handleKeyDown`: Enter without Shift is taken over to send; everything else is left alone. */
    method HandleKeyDown(key: string, shiftKey: bool) returns (preventDefault: bool, sent: Option<string>)
      modifies this
      ensures preventDefault <==> key == "Enter" && !shiftKey
      ensures preventDefault ==> sent == SendPayload(old(text)) && text == (if sent.Some? then [] else old(text))
      ensures !preventDefault ==> sent == None && text == old(text)
    {
      preventDefault, sent := false, None;
      if key == "Enter" && !shiftKey {
        preventDefault := true;
        sent := HandleSend();
      }
    }

    /** The action button: `text.trim() ? handleSend : onListen`. */
    method Click() returns (sent: Option<string>, toggleListening: bool)
      modifies this
      ensures toggleListening <==> ActionFor(old(text)) == ToggleListening
      ensures toggleListening ==> sent == None && text == old(text)
      ensures !toggleListening ==> sent.Some? && sent == SendPayload(old(text)) && text == []
    {
      if Trim(text) != [] {
        sent := HandleSend();
        toggleListening := false;
      } else {
        sent, toggleListening := None, true;
      }
    }
  }

  /** `swapLanguages`: through the page's two setters, with the old source kept in a temporary. */
  method SwapLanguages(page: Home.HomePage)
    requires page.Valid()
    modifies page`fromLanguage, page`toLanguage
    ensures page.Valid()
    ensures page.fromLanguage == old(page.toLanguage) && page.toLanguage == old(page.fromLanguage)
  {
    var temp := page.fromLanguage;
    page.SetFromLanguage(page.toLanguage);
    page.SetToLanguage(temp);
  }

  /** Swapping twice restores both languages. */
  method SwapTwice(page: Home.HomePage)
    requires page.Valid()
    modifies page`fromLanguage, page`toLanguage
    ensures page.Valid()
    ensures page.fromLanguage == old(page.fromLanguage) && page.toLanguage == old(page.toLanguage)
  {
    SwapLanguages(page);
    SwapLanguages(page);
  }
}
