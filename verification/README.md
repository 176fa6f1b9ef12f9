# Random string generator and translator view state, in Dafny

This project models two small cores of a set of browser demos.

- **The random-string generator** (`RandomString`, `random_string.dfy`).
  It has four fixed character classes: 26 lower-case letters, 26 upper-case letters, 10 digits and 28 symbols.
  `secureRandomInt` turns one random draw into an index below `max`.
  `generateRandomString` joins the enabled classes in the fixed order lower, upper, digits, symbols.
  It returns the empty string when no class is enabled.
  Otherwise it appends `charset[secureRandomInt(charset.length)]` once per position.
  Randomness is an input: `rng(i)` is what the environment yields on the i-th draw.
  That is either a 32-bit word from `crypto.getRandomValues`, reduced modulo `max`, or a `Math.random()` value in [0, 1), mapped to `floor(u * max)`.
  The generator is therefore a deterministic function of its request and its draws.
- **The translator view state** (`Translator`, `translator.dfy`).
  The component's state fields are a class: input and output text, the two languages, the loading flag, the error and success messages, the character count, the history, the favourites and the history-panel flag.
  Each event handler is one method.
  A method runs as one atomic transition that reads the fields' values from before it started, as the React setters do.
  The translation service is not called: its answer is an input, `Ok(translated)` or `Err(message)`.
  The clock reading stored in a history entry is an input too.
  `Valid()` says that the counter equals the input's length and that the history holds at most ten entries.
  Every handler preserves it.

JavaScript strings are Dafny `string` values, which are sequences of Unicode code points. For text inside the Basic Multilingual Plane `|s|` is `s.length`. For other text it is not, because JavaScript counts UTF-16 code units (see "## Left out").

## Model

| member | source | states |
|---|---|---|
| `RandomString.AlphabetsWellFormed` | random-string-app/src/utils.js:1-6 | The four alphabets have 26, 26, 10 and 28 characters. No alphabet repeats a character, and no two alphabets share one. |
| `RandomString.ClassOfCharacterIsUnique` | random-string-app/src/utils.js:1-6 | A character belongs to at most one of the four classes. |
| `RandomString.SecureRandomInt` | random-string-app/src/utils.js:9-18 | For `max > 0` the index is below `max` in both branches. A crypto word already below `max` is returned unchanged. A `Math.random()` value `u` gives the index `r` with `r <= u * max < r + 1`. |
| `RandomString.WordIndex` | random-string-app/src/utils.js:10-15 | In the crypto branch the index is below `max`, and a word below `max` maps to itself. |
| `RandomString.FractionIndex` | random-string-app/src/utils.js:17 | In the fallback branch the index is below `max` and is the floor of `u * max`. |
| `RandomString.CryptoIndexIsRemainder` | random-string-app/src/utils.js:14 | The crypto index is the remainder of dividing the 32-bit word by `max`: the word is the quotient times `max` plus the index. |
| `RandomString.EnabledSets` | random-string-app/src/utils.js:21-25 | One alphabet is pushed per enabled flag. |
| `RandomString.Join` | random-string-app/src/utils.js:29 | `sets.join('')`: a character occurs in the joined string exactly when it occurs in one of the joined alphabets. |
| `RandomString.Charset` | random-string-app/src/utils.js:21-29 | The combined charset is the join of the enabled alphabets. Its properties are stated by the `Charset*` lemmas below. |
| `RandomString.JoinAppend` | random-string-app/src/utils.js:29 | Joining two lists of alphabets gives the concatenation of their joins. |
| `RandomString.CharsetIsOrderedConcatenation` | random-string-app/src/utils.js:21-29 | The combined charset is the concatenation, in the order lower, upper, digits, symbols, of exactly the enabled alphabets. |
| `RandomString.CharsetSize` | random-string-app/src/utils.js:21-29 | The charset's length is the sum of the enabled classes' sizes. It is empty exactly when no class is enabled. |
| `RandomString.CharsetMembership` | random-string-app/src/utils.js:21-29 | A character is in the charset exactly when an enabled class contains it. |
| `RandomString.CharsetDistinct` | random-string-app/src/utils.js:21-29 | The combined charset never repeats a character. |
| `RandomString.GenerateRandomString` | random-string-app/src/utils.js:20-35 | With no class enabled the result is `''`. Otherwise it has `max(length, 0)` characters, and character `i` is `charset[secureRandomInt(charset.length, rng(i))]`. |
| `RandomString.Generated` | random-string-app/src/utils.js:27-34 | The reference definition of the result: `''` without an enabled class, otherwise position `i` is `charset[secureRandomInt(charset.length, rng(i))]`. Its length is `length`, or 0 when the charset is empty or `length < 0`. |
| `RandomString.NoClassGivesEmpty` | random-string-app/src/utils.js:27 | With every flag off the result is `''` for every length. |
| `RandomString.GeneratedShape` | random-string-app/src/utils.js:30-34 | With some class enabled the result has exactly `length` characters, or none when `length <= 0`. Every character belongs to an enabled class. |
| `RandomString.GeneratedFromWords` | random-string-app/src/utils.js:31-33 | With crypto words `w`, position `i` of the result is `charset[w(i) % charset.length]`. |
| `RandomString.Defaults` | random-string-app/src/utils.js:20 | The defaults (length 12; lower, upper and digits on; symbols off) give the 62-character charset lower + upper + digits and a 12-character result. |
| `Translator.TrimStartShape` | translation-app/src/components/Translator.jsx:48 | The result is a suffix of the input. Everything dropped is whitespace, and the result does not start with whitespace. |
| `Translator.TrimStart` | translation-app/src/components/Translator.jsx:48 | The leading-whitespace half of `trim`. Its properties are stated by `TrimStartShape`. |
| `Translator.TrimEnd` | translation-app/src/components/Translator.jsx:48 | The trailing-whitespace half of `trim`. Its properties are stated by `TrimEndShape`. |
| `Translator.Trim` | translation-app/src/components/Translator.jsx:48 | `inputText.trim()`, defined as the trailing trim of the leading trim. `TrimEmptyIffBlank` states when it is empty. |
| `Translator.TrimEndShape` | translation-app/src/components/Translator.jsx:48 | The result is a prefix of the input. Everything dropped is whitespace, and the result does not end with whitespace. |
| `Translator.TrimEmptyIffBlank` | translation-app/src/components/Translator.jsx:48 | `!inputText.trim()` holds exactly when every code unit of the input is whitespace. |
| `Translator.RecordEntry` | translation-app/src/components/Translator.jsx:63-66 | The new history starts with the new entry, followed by a prefix of the old history. Its length is the old length plus one, capped at 10. |
| `Translator.Without` | translation-app/src/components/Translator.jsx:103 | The filter removes every occurrence of the value, keeps every other value present, and never grows the list. The order and multiplicity of the kept entries are stated by `WithoutAppend` and `WithoutSingle`. |
| `Translator.WithoutAppend` | translation-app/src/components/Translator.jsx:103 | On any list, the filter of a concatenation is the concatenation of the filters, so kept entries keep their order and multiplicity. |
| `Translator.WithoutSingle` | translation-app/src/components/Translator.jsx:103 | On a one-element list the filter drops the element exactly when it equals the removed value. With `WithoutAppend` this fixes the filter on every list. |
| `Translator.Toggle` | translation-app/src/components/Translator.jsx:100-105 | Afterwards `lang` is a favourite exactly when it was not before. Every other value's membership is unchanged. |
| `Translator.ToggleKeepsOthers` | translation-app/src/components/Translator.jsx:100-105 | On any list, duplicates allowed, the entries other than `lang` keep their order and multiplicity. Removing is the filter, and adding appends `lang` at the end. |
| `Translator.WithoutDeletesOnePosition` | translation-app/src/components/Translator.jsx:103 | On a duplicate-free list, filtering out the element at index `k` deletes exactly that position and keeps every other entry in order. |
| `Translator.WithoutKeepsNoDuplicates` | translation-app/src/components/Translator.jsx:103 | Filtering keeps a duplicate-free list duplicate-free. |
| `Translator.ToggleShape` | translation-app/src/components/Translator.jsx:100-105 | On a duplicate-free list, toggling keeps the list duplicate-free. Adding appends `lang` at the end; removing deletes its one position. The other entries keep their order. |
| `Translator.ToggleTwice` | translation-app/src/components/Translator.jsx:100-105 | Toggling a language that was not a favourite twice restores the original list. |
| `Translator.TranslatorView.constructor` | translation-app/src/components/Translator.jsx:5-15 | The initial values are an empty input, output and counter, source `en`, target `es`, not loading, no messages, empty history and favourites, and the history panel closed. The invariant holds. |
| `Translator.TranslatorView.HandleInputChange` | translation-app/src/components/Translator.jsx:41-45 | The input becomes the new text and the counter becomes its length. Nothing else changes. |
| `Translator.TranslatorView.HandleTranslate` | translation-app/src/components/Translator.jsx:47-75 | A blank input only sets the error 'Please enter text to translate', and `loading` is unchanged. On `Ok(t)`: the error is cleared, the success message is set, the output becomes `t` and the history becomes `RecordEntry({input, t, target, now}, history)`. On `Err(m)`: the error is `m`, the success message and the output are cleared, and the history is unchanged. After a request `loading` is false. Input, counter, languages and favourites never change. |
| `Translator.TranslatorView.HandleSwap` | translation-app/src/components/Translator.jsx:77-81 | Input and output exchange their previous values, and the counter becomes the length of the old output. Nothing else changes. |
| `Translator.TranslatorView.HandleCopy` | translation-app/src/components/Translator.jsx:83-89 | With an empty output nothing changes and nothing is written. Otherwise the output is handed to the clipboard and only the success message changes, to 'Copied to clipboard!'. |
| `Translator.TranslatorView.HandleClear` | translation-app/src/components/Translator.jsx:91-98 | Input, output, error and success become empty and the counter becomes 0. Languages, loading, history and favourites are unchanged. |
| `Translator.TranslatorView.ToggleFavorite` | translation-app/src/components/Translator.jsx:100-106 | The favourites become `Toggle(old, lang)`: `lang`'s membership flips, and a duplicate-free list stays duplicate-free. Nothing else changes. |
| `Translator.TranslatorView.LoadFromHistory` | translation-app/src/components/Translator.jsx:108-114 | The entry's text, translation and language are restored, the counter becomes the text's length, and the history panel closes. Nothing else changes. |
| `Translator.TranslatorView.SelectSourceLanguage` | translation-app/src/components/Translator.jsx:244 | The source language becomes the selected code, and only that field changes. |
| `Translator.TranslatorView.SelectTargetLanguage` | translation-app/src/components/Translator.jsx:255 | The target language becomes the selected code, and only that field changes. |

## Left out

- `copyToClipboard` (random-string-app/src/utils.js:37-52) is clipboard and document I/O, so it is not modelled.
- `FractionIndex`: computes `Math.floor(Math.random() * max)` on exact fractions. It does not model IEEE-754 rounding of the product.
- `SecureRandomInt`: `max` must be positive. Its only caller always passes a non-empty charset length. `secureRandomInt(0)` is not modelled. In JavaScript it returns `NaN` in the crypto branch (`arr[0] % 0`) and 0 in the fallback branch (`Math.floor(Math.random() * 0)`).
- `GenerateRandomString`: the draws are an input sequence, so the model says nothing about their uniformity. The modulo bias of the crypto branch is kept as written.
- `HandleTranslate`: the handler is asynchronous, and other handlers can run between setting `loading` and settling. The Ctrl+Enter listener, for one, is not disabled while loading. The model runs the whole handler atomically. It does not capture that interleaving, nor a listener closure that reads state from an earlier render.
- `HandleTranslate`: the request to the translation service (translation-app/src/lib/translate.js) is a network call. It enters only as the `Outcome` input.
- `HandleCopy`: the `navigator.clipboard.writeText` call is returned as the written text and not performed. The model assumes the clipboard API exists. Where `navigator.clipboard` is undefined (a non-secure origin), the call throws before the success message is set, and that throwing path is not modelled.
- `GenerateRandomString`: `length` is an integer. In JavaScript it is a number, and the app passes `Math.max(1, Number(value))` (random-string-app/src/App.jsx:45), so a fractional length such as 2.5 can reach the loop `i < length`. The loop then runs `ceil(length)` times. The model does not cover fractional lengths.
- Strings: a Dafny `string` is a sequence of Unicode code points, and a lone UTF-16 surrogate cannot be written. For text outside the Basic Multilingual Plane, the model's `charCount` is the number of code points, while the program shows `text.length`, the number of UTF-16 code units (an emoji counts 2 there and 1 here). Trimming and the invariant `charCount == |inputText|` are unaffected, because both sides use the same count.
- `LoadFromHistory`: the component never renders a history panel, so nothing in the UI calls `loadFromHistory` or sets `showHistory` to true. The transition is modelled as written, but it cannot be reached from the UI.
- The timers that clear the success message after 2 and 3 seconds are not modelled.
- The `localStorage` effects that load and save the favourites are not modelled. Because favourites may be loaded from storage, the model does not assume they are duplicate-free; it proves that toggling keeps a duplicate-free list duplicate-free.
- The Ctrl+Enter keydown listener only calls `handleTranslate`, so it is not modelled separately.
- Input focus, tooltip hover state, the JSX rendering and the styles are not modelled.
- `LANGUAGES` is display data and is not modelled.
- The random-string app's React component (random-string-app/src/App.jsx) and the router demo are not part of this model.
