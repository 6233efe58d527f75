# Cleaning helpers of the data-cleaning demo, in Dafny

The demo app cleans two CSV exports (transactions and complaints). It does so
with four single-value helpers in `app.py`:

- `clean_ids` puts merchant identifiers into canonical form.
- `normalize_department` maps free-text department names to a display name
  through the `DEPT_MAP` synonym table.
- `parse_amount_to_dollars` turns amount text such as `$12.50`, `12,50` or
  `USD 1,234,567.89` into a number.
- `extract_txn_id` finds a transaction id in complaint text.

This project models those helpers as pure Dafny functions and proves what they
do. A pandas cell is an `Option<string>`. `None` is a missing cell (`pd.isna`),
and `Some(x)` is the cell's text `str(value)`. Text is ASCII throughout:

- whitespace for `str.strip()`, `str.isspace` and the regular expression `\s`
  is what they accept below 128: `\t \n \v \f \r`, the separators
  `\x1c`-`\x1f` and space;
- whitespace for `float()` is narrower: only `\t \n \v \f \r` and space.
  A separator `\x1c`-`\x1f` is not stripped, so `float()` rejects any text that
  still holds one;
- digits are `0-9`;
- letters are `a-z` and `A-Z`.

Files:

- `wrappers.dfy`: `Option`.
- `text.dfy`: the Python string operations the helpers use. These are
  `strip`, `upper`, `lower`, `count`, and filtering as done by `re.sub` with a
  character class.
- `identifiers.dfy`: `clean_ids`.
- `departments.dfy`: `DEPT_MAP` and `normalize_department`. The lookup key is
  `Key`, and the table lookup with its title-case fallback is `Lookup`.
- `float_syntax.dfy`: Python's `float()` on a string. It covers the full
  accepted grammar: whitespace, sign, `inf`/`infinity`/`nan`, digit groups
  with underscores, fraction and exponent. A decimal literal's value is kept
  as an exact real.
- `amounts.dfy`: `parse_amount_to_dollars`.
  - `Stage` is the text after app.py:37-38.
  - `CommaRules` applies the two comma rules of app.py:40-44.
  - `Rewrite` is the text handed to `float()`.
  - `ParseAmount` is the whole helper. A missing cell and a rejected text
    both give `NaN`, just as `np.nan` and `float('nan')` are the same value.
- `txn_ids.dfy`: `extract_txn_id`. Each regular-expression search is a
  leftmost scan (`SearchPrefixed`, `SearchBare`). Each scan is proved
  against a predicate that states what the pattern matches (`PrefixedMatch`,
  `IsLongRun`).

Where the code and a reader's expectation differ, the model follows the code:

- `$1,234.56` is missing. After the `$` is deleted, `1,234.56` has one comma
  and one period, so neither comma rule applies (app.py:40, app.py:43), and
  `float()` rejects the comma (`Amounts.AmountOneThousandsComma`).
- `OPS-Dept!` becomes `Opsdept`, not `Operations`. Line 27 deletes the
  hyphen instead of turning it into a space (`Departments.KeyOfHyphenated`).
  For the same reason a tab inside a department name is deleted, not
  collapsed into a space.
- `UUSDSD` keeps a `USD`. `str.replace` deletes the inner `USD`, and the
  letters around it then spell a new one that is not searched again
  (`Amounts.RemoveUsdLeavesJoined`).
- The thousands rule can uncover whitespace that line 38 had stripped, as in
  `", 1,2.5"` → `" 12.5"`. `float()` strips a space, tab or newline again, so
  that value is unaffected. A separator `\x1c`-`\x1f` uncovered this way, as in
  `",\x1c1,2.5"` → `"\x1c12.5"`, is not stripped, and the amount is missing
  (`Amounts.AmountWithSeparator`). The same holds for a separator anywhere
  inside the cell. `str.strip()` removes one only at the cell's ends.

## Model

| member | source | states |
|---|---|---|
| Text.UpperStr | app.py:13 | `str.upper()`: same length, each character replaced by its upper-case form |
| Text.LowerStr | app.py:26 | `str.lower()`: same length, each character replaced by its lower-case form |
| Text.LStrip | app.py:26 | `str.lstrip()`: a suffix of the text, not opening with whitespace, and everything cut off is whitespace |
| Text.RStrip | app.py:26 | `str.rstrip()`: a prefix of the text, not ending in whitespace, and everything cut off is whitespace |
| Text.Strip | app.py:37-38 | `str.strip()`, both of the above; `Text.StripEnds`, `Text.SplitAtStrip` and `Text.StripSurrounded` state what it guarantees |
| Text.StripEnds | app.py:37-38 | the stripped text neither opens nor ends with whitespace |
| Text.SplitAtStrip | app.py:37-38 | the text is whitespace, then its strip, then whitespace |
| Text.StripSurrounded | app.py:26 | whitespace added around a text does not change its strip |
| Text.Filter | app.py:27 | `re.sub` with a character class and an empty replacement: no longer than the text and only characters the class keeps; `Text.FilterConcat`, `Text.FilterKeepsAll` and `Text.FilterDropsAll` fix it on every text |
| Text.FilterConcat | app.py:27 | filtering a concatenation filters each part |
| Text.FilterKeepsAll | app.py:27 | a text of kept characters is unchanged |
| Text.FilterDropsAll | app.py:27 | a text of deleted characters vanishes |
| Text.Count | app.py:40 | `str.count` for one character; `Text.CountOne` and `Text.CountConcat` fix its value on every text, and `Text.CountZero` relates it to membership |
| Text.CountOne | app.py:40-43 | a single character counts 1 when it is the one counted and 0 otherwise |
| Text.CountZero | app.py:40-43 | the count is zero exactly when the character does not occur |
| Text.CountConcat | app.py:40-43 | the count of a concatenation is the sum of the counts |
| Identifiers.CleanIdText | app.py:13 | the cleaned text has no whitespace and no lower-case letter, and is no longer than the input |
| Identifiers.CleanIds | app.py:10-13 | a missing value stays missing and only a missing value gives missing; any other result is canonical |
| Identifiers.CleanIdTextCons | app.py:13 | character by character, whitespace contributes nothing and every other character contributes its upper-case form |
| Identifiers.CanonicalIffFixed | app.py:13 | a text is left unchanged exactly when it has no whitespace and no lower-case letter |
| Identifiers.CleanIdsIdempotent | app.py:10-13 | cleaning twice equals cleaning once |
| Identifiers.CleanIdTextIgnoresCase | app.py:13 | identifiers that differ only in letter case clean alike |
| Identifiers.CleanIdTextIgnoresSpace | app.py:13 | whitespace anywhere in an identifier, a run of any length, is deleted without a trace |
| Identifiers.CleanIdsExample | app.py:10-13 | `" a1 b "` becomes `"A1B"` |
| Departments.CollapseSpaces | app.py:28 | `re.sub(r"\s+", " ", s)`; `Departments.CollapseShape`, `Departments.CollapseSpaceRun` and `Departments.CollapseFixed` state what it guarantees |
| Departments.CollapseShape | app.py:28 | the collapsed text never has two whitespace characters side by side |
| Departments.CollapseSpaceRun | app.py:28 | a run of one or more spaces collapses exactly like a single space |
| Departments.CollapseFixed | app.py:28 | a text whose whitespace is single spaces is left unchanged |
| Departments.Key | app.py:26-28 | the lookup key; `Departments.KeyIsKey` and the `Key…` lemmas below state what it guarantees |
| Departments.KeyIsKey | app.py:26-28 | the lookup key holds only `a-z` and single spaces, with no space at either end |
| Departments.NormalizeDepartment | app.py:23-25 | the result is missing exactly when the input is missing |
| Departments.KeyIgnoresCase | app.py:26 | names equal up to letter case have the same key |
| Departments.KeyIgnoresJunk | app.py:27 | deleting characters that are neither letters nor spaces (punctuation, digits, tabs) does not change the key |
| Departments.KeyWithoutStrip | app.py:26-28 | the strip on line 26 does not change the key: whitespace there is collapsed and stripped on line 28 anyway |
| Departments.KeyIgnoresSurroundingSpace | app.py:26 | whitespace around a name does not change its key |
| Departments.KeyCollapsesSpaces | app.py:28 | a run of one or more spaces inside a name keys like a single space |
| Departments.KeyOfKey | app.py:26-28 | a well-formed key is its own key |
| Departments.KeyOfHyphenated | app.py:27 | a hyphen between two lower-case words is deleted, joining the words into one |
| Departments.KeyOfLowered | app.py:26-28 | a name whose lower-cased text is a well-formed key has that key |
| Departments.KeyOfTitle | app.py:26-29 | the title-cased form of a key has that key again |
| Departments.TitleCase | app.py:29 | `str.title()`; `Departments.TitleCaseAt` states it character by character |
| Departments.TitleCaseAt | app.py:29 | `str.title()` character by character: a letter opening the text or following a non-letter is upper-cased, a letter after a letter is lower-cased, anything else is kept |
| Departments.TitleOfKey | app.py:29 | `str.title()` on a key upper-cases the first letter of each word and keeps the rest |
| Departments.LowerOfTitle | app.py:29 | lower-casing a title-cased text gives the lower-cased text |
| Departments.TableKeyIsKey | app.py:15-21 | every `DEPT_MAP` key is a well-formed key, so each is reachable |
| Departments.SynonymsAreOperations | app.py:15-21 | every `DEPT_MAP` entry maps to "Operations" |
| Departments.Lookup | app.py:29 | `DEPT_MAP.get(k, k.title())`; `Departments.SynonymGivesOperations`, `Departments.OperationsIffSynonym` and `Departments.FallbackIsTitleCase` state what it returns |
| Departments.SynonymGivesOperations | app.py:29 | a name whose key is in `DEPT_MAP` becomes "Operations" |
| Departments.TableKeyGivesOperations | app.py:15-29 | each `DEPT_MAP` key itself becomes "Operations" |
| Departments.NormalizeSynonymCase | app.py:23-29 | any case variant of a `DEPT_MAP` key becomes "Operations" |
| Departments.OperationsIffSynonym | app.py:29 | the result is "Operations" if and only if the key is a `DEPT_MAP` synonym |
| Departments.FallbackIsTitleCase | app.py:29 | a key outside `DEPT_MAP` is returned title-cased: same length, lower-cases back to the key, first letter of each word upper-cased |
| Departments.NormalizeIgnoresCase | app.py:23-29 | names differing only in letter case normalise alike |
| Departments.NormalizeIgnoresJunk | app.py:23-29 | deleting punctuation and digits does not change the result |
| Departments.NormalizeIgnoresSurroundingSpace | app.py:23-29 | whitespace around a name does not change the result |
| Departments.NormalizeCollapsesSpaces | app.py:23-29 | a run of one or more spaces inside a name normalises like a single space |
| Departments.NormalizeWord | app.py:23-29 | a lower-case word without a synonym comes out capitalised |
| Departments.NormalizeCapitalised | app.py:23-29 | a name whose lower-cased text is such a word comes out as that word capitalised |
| Departments.NormalizeIdempotent | app.py:23-29 | normalising twice equals normalising once |
| Departments.ExampleOps | app.py:15-29 | `"ops"` becomes "Operations" |
| Departments.ExampleUpperCase | app.py:15-29 | `"OPS DEPT"` becomes "Operations" |
| Departments.ExampleSpacedLetters | app.py:15-29 | `"O p S"` becomes "Operations" |
| Departments.ExamplePunctuation | app.py:15-29 | `"operations team!!"` becomes "Operations" |
| Departments.ExampleAcronym | app.py:23-29 | `"HR"` becomes `"Hr"` |
| FloatSyntax.TrimStart | app.py:46 | the text without its leading `float()` whitespace: a suffix, not opening with whitespace, and everything cut off is whitespace |
| FloatSyntax.TrimEnd | app.py:46 | the text without its trailing `float()` whitespace: a prefix, not ending in whitespace, and everything cut off is whitespace |
| FloatSyntax.Trim | app.py:46 | the whitespace `float()` strips, `\t \n \v \f \r` and space only; `FloatSyntax.TrimmedText`, `FloatSyntax.TrimKeeps` and `FloatSyntax.TrimSurrounded` state it |
| FloatSyntax.TrimmedText | app.py:46 | a text with no such whitespace at either end is unchanged |
| FloatSyntax.TrimKeeps | app.py:46 | every character other than that whitespace, a separator `\x1c`-`\x1f` included, stays |
| FloatSyntax.TrimSurrounded | app.py:46 | such whitespace added around a text is removed again |
| FloatSyntax.ParseFloat | app.py:46 | `float()` on a string, `None` where it raises; the `FloatSyntax.Parse…` lemmas below state what it accepts and the value it reads |
| FloatSyntax.ParseRejectsForeign | app.py:45-48 | `float()` rejects any text holding a character that is not a digit, letter, whitespace, `_`, `.` or sign, such as a comma or `$` |
| FloatSyntax.ParseRejectsComma | app.py:45-48 | in particular `float()` rejects any text holding a comma |
| FloatSyntax.ParseRejectsSeparator | app.py:45-48 | `float()` rejects any text holding a separator `\x1c`-`\x1f`, even at an end |
| FloatSyntax.ExampleLeadingSeparator | app.py:45-48 | `float("\x1c1")` raises |
| FloatSyntax.NumberOfLetters | app.py:46 | letters alone, or nothing, are no `number` |
| FloatSyntax.FloatNumberOfLetters | app.py:46 | a word is no `floatnumber`, even where an `e` in it could open an exponent |
| FloatSyntax.ParseRejectsWord | app.py:45-48 | `float()` rejects every word of letters other than `inf`, `infinity` and `nan` in any case |
| FloatSyntax.ExampleWord | app.py:45-48 | `float("abc")` raises |
| FloatSyntax.ExampleExponentMarkAlone | app.py:45-48 | `float("e")` raises |
| FloatSyntax.ExampleNaNWord | app.py:46 | `float("NaN")` reads a NaN |
| FloatSyntax.ParseIgnoresSpace | app.py:46 | `\t \n \v \f \r` and spaces around the text do not change what `float()` reads |
| FloatSyntax.ParseSigned | app.py:46 | a leading `-` negates whatever the rest reads as (infinities and NaN included), and a leading `+` changes nothing |
| FloatSyntax.ParseUnsignedNumber | app.py:46 | a trimmed text that starts with a digit or a point is read as a decimal literal |
| FloatSyntax.ParseWhole | app.py:46 | a run of digits reads as the number it spells |
| FloatSyntax.ParseDecimal | app.py:46 | `w.f` reads as `w` plus `f` over ten to the length of `f` |
| FloatSyntax.PointValueOfDigits | app.py:46 | that value, with the fraction's digits counted as tenths, hundredths and so on |
| FloatSyntax.ParseRender | app.py:46 | `float(str(n))` is `n` for every natural number: decimal rendering and parsing round-trip |
| FloatSyntax.RenderDigits | app.py:46 | `str(n)` is all digits and spells `n` |
| Amounts.ParseAmount | app.py:34-36 | a missing cell gives NaN; `Amounts.MissingOfText` and the `Amount…` lemmas give the other results |
| Amounts.MissingOfText | app.py:45-48 | any text whose rewrite `float()` rejects gives NaN: the `except` branch |
| Amounts.AmountOfWord | app.py:34-48 | a cell holding a word other than `inf`, `infinity` or `nan`, with no `USD` in it, gives NaN |
| Amounts.ExampleWordAmount | app.py:34-48 | `parse_amount_to_dollars("abc")` is NaN |
| Amounts.RemoveChar | app.py:38 | `str.replace(c, "")` for one character: no `c` is left (also the comma deletion of line 44) |
| Amounts.ReplaceChar | app.py:41 | `str.replace(c, d)` for single characters: same length, each `c` becomes `d`, everything else is kept |
| Amounts.RemoveUsd | app.py:38 | `str.replace("USD", "")`: never longer than the text; with `Amounts.RemoveUsdAfterPlain`, `Amounts.RemoveUsdWithoutU` and `Amounts.RemoveUsdUnchangedIff` every occurrence found left to right is deleted; `Amounts.RemoveUsdAfterPlain` pins the value on every text that holds a `USD`, and `Amounts.RemoveUsdUnchangedIff` on every text that does not |
| Amounts.Stage | app.py:37-38 | the text after lines 37-38; `Amounts.StageIsClean` states it |
| Amounts.StageIsClean | app.py:37-38 | after the first rewrite the text has no `$` and no whitespace at either end |
| Amounts.RewriteHasNoDollar | app.py:37-44 | the text handed to `float()` holds no `$` |
| Amounts.RemoveUsdUnchangedIff | app.py:38 | deleting `USD` changes the text exactly when `USD` occurs in it |
| Amounts.RemoveUsdWithoutU | app.py:38 | a text without `U` is unchanged |
| Amounts.RemoveUsdAfterPlain | app.py:38 | text in which no `USD` starts is kept, even a stray `U` or `US` just before a `USD`; the first `USD` after it is deleted and the search goes on in the rest: every occurrence goes, not only the first |
| Amounts.RemoveUsdStrayU | app.py:38 | `"US USD"` becomes `"US "` and `"U USD"` becomes `"U "` |
| Amounts.RemoveUsdBoth | app.py:38 | `"USD 5 USD"` becomes `" 5 "` |
| Amounts.RemoveUsdLeavesJoined | app.py:38 | one pass of deletion can leave a `USD`: `UUSDSD` becomes `USD` |
| Amounts.CommaRules | app.py:40-44 | the two comma rules in order; `Amounts.CommaRulesCases` states them |
| Amounts.Rewrite | app.py:37-44 | the text handed to `float()`; `Amounts.RewriteHasNoDollar` and `Amounts.DigitsKept` state what it keeps |
| Amounts.CommaRulesCases | app.py:40-44 | one comma and no period turns the comma into a point, and the thousands rule then does not fire; several commas and a period delete every comma; any other mix is left alone; a comma survives exactly in that last case |
| Amounts.LeftoverCommaIsMissing | app.py:40-48 | a comma neither rule removes makes the amount missing |
| Amounts.CommaRulesKeepIn | app.py:40-44 | the comma rules keep every character other than a comma |
| Amounts.AmountWithSeparator | app.py:37-48 | a separator `\x1c`-`\x1f` inside the cell, which the strips of lines 37-38 leave in place, makes the amount missing |
| Amounts.DigitsKept | app.py:37-44 | the text handed to `float()` has the cell's digits, in order |
| Amounts.AmountDecimalComma | app.py:37-46 | `w,f` reads as `w.f` |
| Amounts.AmountWithDollar | app.py:37-46 | `$w.f` reads as `w.f` |
| Amounts.AmountWithUsd | app.py:37-46 | `USD w.f` reads as `w.f` |
| Amounts.AmountThousands | app.py:37-46 | `a,b,c.f` reads as `abc.f` |
| Amounts.AmountOneThousandsComma | app.py:34-48 | `$w,g.f` (one thousands comma and a point) is missing |
| TxnIds.ExtractTxnId | app.py:50-52 | a missing cell gives no id |
| TxnIds.SearchPrefixed | app.py:54-56 | the scan returns a prefixed match with no prefixed match at any earlier position, and returns nothing only when there is no prefixed match at all |
| TxnIds.SearchBare | app.py:57-58 | the scan returns a maximal run of four or more digits with none starting earlier, and returns nothing only when there is no such run |
| TxnIds.MatchAtFinds | app.py:54 | at a position, the scan finds exactly the match the prefixed pattern has there, and that match is unique |
| TxnIds.PrefixedIsLong | app.py:54 | the group of a prefixed match is a maximal run of four or more digits, because every prefix ends in a non-digit |
| TxnIds.ExtractIsLongRun | app.py:54-58 | any id found is a maximal run of four or more digits of the text, copied as it stands with leading zeros kept |
| TxnIds.PrefixedWins | app.py:54-56 | the leftmost prefixed match decides, whatever digit runs come earlier |
| TxnIds.BareFallback | app.py:55-58 | with no prefixed match, the leftmost maximal run of four or more digits is returned |
| TxnIds.ExtractMissingIff | app.py:50-58 | no id is found if and only if the text has no four digits in a row |
| TxnIds.PrefixedAfterText | app.py:54-56 | `TXN-` and four or more digits, after text where no prefix can start, gives those digits, even when that text holds a longer digit run |
| TxnIds.ExtractIgnoresCase | app.py:54 | texts equal up to letter case give the same id |
| TxnIds.ExampleHash | app.py:54-56 | `"#12345"` gives `"12345"` |
| TxnIds.ExampleShortRef | app.py:57-58 | `"ref 12"` gives no id |

## Left out

- `parse_any_date` (app.py:31-32) is not part of this model. It is a call into pandas `to_datetime`, whose format inference is outside this code.
- The Streamlit page, the file uploaders, CSV loading, previews and the dataframe rendering (app.py:60 onwards) are not part of this model: they are UI and file I/O.
- The column-wise `.apply` on DataFrame copies is not part of this model; each helper is modelled on one cell.
- A non-text cell is taken as its text `str(value)`. How pandas and Python render numbers and other objects as text is not modelled.
- Unicode is not modelled. Python's `\s`, `\d`, `re.I`, `str.isspace`, `upper`, `lower` and `title` cover all of Unicode; here they cover ASCII only.
- FloatSyntax.ParseFloat: keeps the exact decimal value. Python rounds it to the nearest double, and a value beyond the double range becomes an infinity. The later `.round(2)` and `amount_cents / 100.0` in the script are floating-point arithmetic and are not modelled.
- Amounts.ParseAmount: states only that a missing cell gives NaN. `Amounts.MissingOfText` states that every text whose rewrite `float()` rejects gives NaN. The values of texts that do parse are stated by the `Amount…` lemmas for the formats the rewrite is meant for, not for every text `float()` accepts.
