/** Model of the Translator component's view state and its event handlers.

    Each handler is one atomic transition: like the React setters, every
    assignment reads the values the fields had before the handler ran.
    A JS string is a `string` here, a sequence of Unicode code points, so
    `|s|` equals `s.length` only for text inside the Basic Multilingual
    Plane (outside it JS counts two UTF-16 code units per character). The translation service is not called: its answer
    is an input `Outcome`, and the clock reading stored in a history entry
    is an input too. */
module Translator {

  // ---------------------------------------------------------------------------
  // Values
  // ---------------------------------------------------------------------------

  /** One history record `{ text, translated, language, timestamp }`. */
  datatype Entry = Entry(text: string, translated: string, language: string, timestamp: int)

  /** What `translateText` settles with: the translated text, or a thrown error's message. */
  datatype Outcome = Ok(translated: string) | Err(message: string)

  datatype Option<T> = None | Some(value: T)

  const HistoryLimit: nat := 10
  const BlankInputError: string := "Please enter text to translate"
  const TranslatedNotice: string := "Translation successful!"
  const CopiedNotice: string := "Copied to clipboard!"

  // ---------------------------------------------------------------------------
  // String.prototype.trim
  // ---------------------------------------------------------------------------

  /** The code units `trim` removes: ECMAScript WhiteSpace and LineTerminator. */
  predicate IsJsWhitespace(c: char) {
    c == '\t' || c == '\n' || c == '\U{000B}' || c == '\U{000C}' || c == '\r' || c == ' '
    || c == '\U{00A0}' || c == '\U{1680}' || ('\U{2000}' <= c <= '\U{200A}')
    || c == '\U{2028}' || c == '\U{2029}' || c == '\U{202F}' || c == '\U{205F}'
    || c == '\U{3000}' || c == '\U{FEFF}'
  }

  predicate AllWhitespace(s: string) {
    forall i :: 0 <= i < |s| ==> IsJsWhitespace(s[i])
  }

  /** `s` without its leading whitespace. */
  function TrimStart(s: string): string {
    if s != [] && IsJsWhitespace(s[0]) then TrimStart(s[1..]) else s
  }

  /** `s` without its trailing whitespace. */
  function TrimEnd(s: string): string {
    if s != [] && IsJsWhitespace(s[|s| - 1]) then TrimEnd(s[..|s| - 1]) else s
  }

  /** `s.trim()`. */
  function Trim(s: string): string {
    TrimEnd(TrimStart(s))
  }

  /** TrimStart drops a whitespace prefix and stops at the first other code unit. */
  lemma {:induction false} TrimStartShape(s: string)
    ensures |TrimStart(s)| <= |s| && TrimStart(s) == s[|s| - |TrimStart(s)|..]
    ensures AllWhitespace(s[..|s| - |TrimStart(s)|])
    ensures TrimStart(s) == [] || !IsJsWhitespace(TrimStart(s)[0])
  {
    if s != [] && IsJsWhitespace(s[0]) {
      TrimStartShape(s[1..]);
      var r := TrimStart(s[1..]);
      assert s[..|s| - |r|] == [s[0]] + s[1..][..|s[1..]| - |r|];
    }
  }

  /** TrimEnd drops a whitespace suffix and stops at the last other code unit. */
  lemma {:induction false} TrimEndShape(s: string)
    ensures |TrimEnd(s)| <= |s| && TrimEnd(s) == s[..|TrimEnd(s)|]
    ensures AllWhitespace(s[|TrimEnd(s)|..])
    ensures TrimEnd(s) == [] || !IsJsWhitespace(TrimEnd(s)[|TrimEnd(s)| - 1])
  {
    if s != [] && IsJsWhitespace(s[|s| - 1]) {
      TrimEndShape(s[..|s| - 1]);
      var r := TrimEnd(s[..|s| - 1]);
      assert s[|r|..] == s[..|s| - 1][|r|..] + [s[|s| - 1]];
    }
  }

  /** `!s.trim()` holds exactly when every code unit of `s` is whitespace. */
  lemma TrimEmptyIffBlank(s: string)
    ensures Trim(s) == [] <==> AllWhitespace(s)
  {
    var t := TrimStart(s);
    TrimStartShape(s);
    TrimEndShape(t);
    if Trim(s) == [] {
      assert s[..|s| - |t|] == s;
    }
  }

  // ---------------------------------------------------------------------------
  // List rebuilds used by the handlers
  // ---------------------------------------------------------------------------

  /** `[entry, ...history.slice(0, 9)]`: the newest entry first, then at most
      nine of the older ones, newest first. */
  function RecordEntry(entry: Entry, history: seq<Entry>): (r: seq<Entry>)
    ensures |r| == if |history| < HistoryLimit then |history| + 1 else HistoryLimit
    ensures r[0] == entry
    ensures r[1..] <= history
  {
    [entry] + (if |history| <= HistoryLimit - 1 then history else history[..HistoryLimit - 1])
  }

  /** `list.filter((f) => f !== x)`. */
  function Without(s: seq<string>, x: string): (r: seq<string>)
    ensures x !in r
    ensures forall y :: y != x ==> (y in r <==> y in s)
    ensures |r| <= |s|
  {
    if s == [] then []
    else if s[0] == x then Without(s[1..], x)
    else [s[0]] + Without(s[1..], x)
  }

  predicate NoDuplicates<T(==)>(s: seq<T>) {
    forall i, j :: 0 <= i < j < |s| ==> s[i] != s[j]
  }

  /** The favourites list after `toggleFavorite(lang)`. */
  function Toggle(favorites: seq<string>, lang: string): (r: seq<string>)
    ensures lang in r <==> lang !in favorites
    ensures forall other :: other != lang ==> (other in r <==> other in favorites)
  {
    if lang in favorites then Without(favorites, lang) else favorites + [lang]
  }

  /** Without the element at index k of a duplicate-free list, the filter
      deletes exactly that position and keeps every other entry in order. */
  lemma {:induction false} WithoutDeletesOnePosition(s: seq<string>, k: nat)
    requires NoDuplicates(s) && k < |s|
    ensures Without(s, s[k]) == s[..k] + s[k + 1..]
  {
    if k == 0 {
      WithoutAbsent(s[1..], s[0]);
    } else {
      assert NoDuplicates(s[1..]);
      WithoutDeletesOnePosition(s[1..], k - 1);
      assert s[1..][k - 1] == s[k];
      assert s[..k] + s[k + 1..] == [s[0]] + (s[1..][..k - 1] + s[1..][k..]);
    }
  }

  /** Filtering out a value that does not occur changes nothing. */
  lemma {:induction false} WithoutAbsent(s: seq<string>, x: string)
    requires x !in s
    ensures Without(s, x) == s
  {
    if s != [] {
      WithoutAbsent(s[1..], x);
    }
  }

  /** Filtering keeps a duplicate-free list duplicate-free. */
  lemma {:induction false} WithoutKeepsNoDuplicates(s: seq<string>, x: string)
    requires NoDuplicates(s)
    ensures NoDuplicates(Without(s, x))
  {
    if s != [] {
      assert NoDuplicates(s[1..]);
      WithoutKeepsNoDuplicates(s[1..], x);
      var rest := Without(s[1..], x);
      if s[0] != x {
        assert s[0] !in s[1..];
        assert s[0] !in rest;
        var r := [s[0]] + rest;
        forall i, j | 0 <= i < j < |r| ensures r[i] != r[j] {
          if i == 0 {
            assert r[j] == rest[j - 1];
          } else {
            assert r[i] == rest[i - 1] && r[j] == rest[j - 1];
          }
        }
      }
    }
  }

  /** Toggling keeps a duplicate-free favourites list duplicate-free, and
      the entries other than `lang` keep their relative order: removing
      deletes the one position of `lang`, adding appends it at the end. */
  lemma ToggleShape(favorites: seq<string>, lang: string)
    requires NoDuplicates(favorites)
    ensures NoDuplicates(Toggle(favorites, lang))
    ensures lang !in favorites ==> Toggle(favorites, lang) == favorites + [lang]
    ensures forall k :: 0 <= k < |favorites| && favorites[k] == lang ==>
              Toggle(favorites, lang) == favorites[..k] + favorites[k + 1..]
  {
    if lang in favorites {
      WithoutKeepsNoDuplicates(favorites, lang);
      forall k | 0 <= k < |favorites| && favorites[k] == lang
        ensures Toggle(favorites, lang) == favorites[..k] + favorites[k + 1..]
      {
        WithoutDeletesOnePosition(favorites, k);
      }
    } else {
      var r := favorites + [lang];
      forall i, j | 0 <= i < j < |r| ensures r[i] != r[j] {
        if j == |favorites| {
          assert r[i] == favorites[i];
        }
      }
    }
  }

  /** The filter distributes over concatenation: it keeps the kept entries
      of each part, in order and with their multiplicity. */
  lemma {:induction false} WithoutAppend(a: seq<string>, b: seq<string>, x: string)
    ensures Without(a + b, x) == Without(a, x) + Without(b, x)
  {
    if a == [] {
      assert a + b == b;
    } else {
      assert (a + b)[1..] == a[1..] + b;
      WithoutAppend(a[1..], b, x);
    }
  }

  /** On a one-element list the filter drops the element exactly when it equals x. */
  lemma WithoutSingle(y: string, x: string)
    ensures Without([y], x) == if y == x then [] else [y]
  {
    assert [y][1..] == [];
  }

  /** On any list, duplicates or not, toggling leaves the other entries, in
      order and with their multiplicity, as they were: filtering `lang` out of
      the new list gives what filtering it out of the old list gives. */
  lemma {:induction false} ToggleKeepsOthers(favorites: seq<string>, lang: string)
    ensures Without(Toggle(favorites, lang), lang) == Without(favorites, lang)
    ensures lang !in favorites ==> Toggle(favorites, lang) == favorites + [lang]
    ensures lang in favorites ==> Toggle(favorites, lang) == Without(favorites, lang)
  {
    if lang in favorites {
      WithoutIdempotent(favorites, lang);
    } else {
      WithoutAppend(favorites, [lang], lang);
      WithoutSingle(lang, lang);
    }
  }

  /** Filtering twice by the same value is filtering once. */
  lemma {:induction false} WithoutIdempotent(s: seq<string>, x: string)
    ensures Without(Without(s, x), x) == Without(s, x)
  {
    WithoutAbsent(Without(s, x), x);
  }

  /** Toggling a language twice restores the list it was first added to. */
  lemma ToggleTwice(favorites: seq<string>, lang: string)
    requires lang !in favorites
    ensures Toggle(Toggle(favorites, lang), lang) == favorites
  {
    WithoutAppended(favorites, lang);
  }

  lemma {:induction false} WithoutAppended(s: seq<string>, x: string)
    requires x !in s
    ensures Without(s + [x], x) == s
  {
    if s == [] {
      assert [x][1..] == [];
    } else {
      assert (s + [x])[1..] == s[1..] + [x];
      WithoutAppended(s[1..], x);
    }
  }

  // ---------------------------------------------------------------------------
  // The component state and its handlers
  // ---------------------------------------------------------------------------

  class TranslatorView {
    var inputText: string
    var outputText: string
    var sourceLanguage: string
    var targetLanguage: string
    var loading: bool
    var error: string
    var success: string
    var charCount: int
    var history: seq<Entry>
    var favorites: seq<string>
    var showHistory: bool

    /** The counter shows the input's length, and the history keeps at most ten entries. */
    ghost predicate Valid()
      reads this
    {
      charCount == |inputText| && |history| <= HistoryLimit
    }

    /** The initial values of the `useState` hooks. */
    constructor ()
      ensures Valid()
      ensures inputText == "" && outputText == "" && charCount == 0
      ensures sourceLanguage == "en" && targetLanguage == "es"
      ensures !loading && error == "" && success == ""
      ensures history == [] && favorites == [] && !showHistory
    {
      inputText, outputText := "", "";
      sourceLanguage, targetLanguage := "en", "es";
      loading := false;
      error, success := "", "";
      charCount := 0;
      history, favorites := [], [];
      showHistory := false;
    }

    /** handleInputChange: the textarea's new value becomes the input and its length the counter. */
    method HandleInputChange(text: string)
      requires Valid()
      modifies this
      ensures Valid()
      ensures inputText == text && charCount == |text|
      ensures outputText == old(outputText) && sourceLanguage == old(sourceLanguage)
      ensures targetLanguage == old(targetLanguage) && loading == old(loading)
      ensures error == old(error) && success == old(success)
      ensures history == old(history) && favorites == old(favorites) && showHistory == old(showHistory)
    {
      inputText := text;
      charCount := |text|;
    }

    /** handleTranslate, with the service's answer given as `outcome` and
        the clock reading for the history entry as `now`. */
    method HandleTranslate(outcome: Outcome, now: int)
      requires Valid()
      modifies this
      ensures Valid()
      // Untouched by every branch.
      ensures inputText == old(inputText) && charCount == old(charCount)
      ensures sourceLanguage == old(sourceLanguage) && targetLanguage == old(targetLanguage)
      ensures favorites == old(favorites) && showHistory == old(showHistory)
      // Blank input (see TrimEmptyIffBlank): only the error message is set.
      ensures Trim(old(inputText)) == [] ==>
        error == BlankInputError && success == old(success) && loading == old(loading)
        && outputText == old(outputText) && history == old(history)
      // Otherwise the request settles and loading is off again.
      ensures Trim(old(inputText)) != [] ==> !loading
      ensures Trim(old(inputText)) != [] && outcome.Ok? ==>
        error == "" && success == TranslatedNotice && outputText == outcome.translated
        && history == RecordEntry(Entry(old(inputText), outcome.translated, old(targetLanguage), now), old(history))
      ensures Trim(old(inputText)) != [] && outcome.Err? ==>
        error == outcome.message && success == "" && outputText == "" && history == old(history)
    {
      if Trim(inputText) == [] {
        error := BlankInputError;
        return;
      }
      error := "";
      success := "";
      loading := true;
      match outcome {
        case Ok(translated) =>
          outputText := translated;
          success := TranslatedNotice;
          history := RecordEntry(Entry(inputText, translated, targetLanguage, now), history);
        case Err(message) =>
          error := message;
          outputText := "";
      }
      loading := false;
    }

    /** handleSwap: input and output change places, and the counter follows the new input. */
    method HandleSwap()
      requires Valid()
      modifies this
      ensures Valid()
      ensures inputText == old(outputText) && outputText == old(inputText)
      ensures charCount == |old(outputText)|
      ensures sourceLanguage == old(sourceLanguage) && targetLanguage == old(targetLanguage)
      ensures loading == old(loading) && error == old(error) && success == old(success)
      ensures history == old(history) && favorites == old(favorites) && showHistory == old(showHistory)
    {
      inputText, outputText := outputText, inputText;
      charCount := |inputText|;
    }

    /** handleCopy: with an output, hands it to the clipboard (returned as
        `written`) and sets the copied notice; with none, does nothing. */
    method HandleCopy() returns (written: Option<string>)
      requires Valid()
      modifies this
      ensures Valid()
      ensures old(outputText) == "" ==> written == None && success == old(success)
      ensures old(outputText) != "" ==> written == Some(old(outputText)) && success == CopiedNotice
      ensures inputText == old(inputText) && outputText == old(outputText) && charCount == old(charCount)
      ensures sourceLanguage == old(sourceLanguage) && targetLanguage == old(targetLanguage)
      ensures loading == old(loading) && error == old(error)
      ensures history == old(history) && favorites == old(favorites) && showHistory == old(showHistory)
    {
      written := None;
      if outputText != "" {
        written := Some(outputText);
        success := CopiedNotice;
      }
    }

    /** handleClear: empties both texts and both messages and resets the counter. */
    method HandleClear()
      requires Valid()
      modifies this
      ensures Valid()
      ensures inputText == "" && outputText == "" && error == "" && success == "" && charCount == 0
      ensures sourceLanguage == old(sourceLanguage) && targetLanguage == old(targetLanguage)
      ensures loading == old(loading)
      ensures history == old(history) && favorites == old(favorites) && showHistory == old(showHistory)
    {
      inputText, outputText := "", "";
      error, success := "", "";
      charCount := 0;
    }

    /** toggleFavorite(lang): removes `lang` from the favourites if present, appends it otherwise. */
    method ToggleFavorite(lang: string)
      requires Valid()
      modifies this
      ensures Valid()
      ensures favorites == Toggle(old(favorites), lang)
      ensures lang in favorites <==> lang !in old(favorites)
      ensures NoDuplicates(old(favorites)) ==> NoDuplicates(favorites)
      ensures inputText == old(inputText) && outputText == old(outputText) && charCount == old(charCount)
      ensures sourceLanguage == old(sourceLanguage) && targetLanguage == old(targetLanguage)
      ensures loading == old(loading) && error == old(error) && success == old(success)
      ensures history == old(history) && showHistory == old(showHistory)
    {
      if NoDuplicates(favorites) {
        ToggleShape(favorites, lang);
      }
      favorites := Toggle(favorites, lang);
    }

    /** loadFromHistory(item): restores the entry's texts and language and closes the history panel. */
    method LoadFromHistory(item: Entry)
      requires Valid()
      modifies this
      ensures Valid()
      ensures inputText == item.text && outputText == item.translated
      ensures targetLanguage == item.language && charCount == |item.text| && !showHistory
      ensures sourceLanguage == old(sourceLanguage) && loading == old(loading)
      ensures error == old(error) && success == old(success)
      ensures history == old(history) && favorites == old(favorites)
    {
      inputText := item.text;
      outputText := item.translated;
      targetLanguage := item.language;
      charCount := |item.text|;
      showHistory := false;
    }

    /** The source-language select's change handler. */
    method SelectSourceLanguage(code: string)
      requires Valid()
      modifies this`sourceLanguage
      ensures Valid() && sourceLanguage == code
    {
      sourceLanguage := code;
    }

    /** The target-language select's change handler, also used by the quick-favourite buttons. */
    method SelectTargetLanguage(code: string)
      requires Valid()
      modifies this`targetLanguage
      ensures Valid() && targetLanguage == code
    {
      targetLanguage := code;
    }
  }

  /** A usage example: one concrete run of the handlers from the initial
      state, showing what a caller can conclude from their contracts alone. */
  method UsageExample(text: string, outcome: Outcome, now: int, lang: string)
  {
    var v := new TranslatorView();
    v.HandleInputChange(text);
    v.HandleTranslate(outcome, now);
    assert v.charCount == |text|;
    v.HandleSwap();
    var _ := v.HandleCopy();
    v.ToggleFavorite(lang);
    assert v.favorites == [lang];
    v.ToggleFavorite(lang);
    assert v.favorites == [];
    v.HandleClear();
    assert v.inputText == "" && v.charCount == 0;
  }
}
