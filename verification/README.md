# MidCity meter reader and chord scraper — a Dafny model

This project models the core logic of two small home-automation add-ons.

**MidCity Utilities** (`midcity_sensor.py`) signs in to a prepaid-meter
portal and publishes one Home Assistant sensor per meter. The model covers
its page-reading logic:

- `get_meter_data` finds the meter number, the balance and the predicted
  zero-balance date on the dashboard page.
- `parse_meter_card` reads one meter card through a cascade of regular
  expressions. The cascade tries kWh, then water, then rand, then any
  decimal amount, and then decides the meter type.
- `update_ha_sensor` derives the entity id, unique id, device class, icon
  and friendly name.

**Chord Scraper** fetches chord sheets and reformats them for the OnSong
app. The model covers:

- chord analysis: parsing a chord, extracting bracketed chords, detecting
  the key, Nashville numbers and the progression header;
- the worshipchords page reader: the title, the key attribute, the
  chord-row detector and the layout of the chord text;
- the two OnSong formatters: bracketing plain chord rows and converting
  Ultimate Guitar markup and section headers;
- the search-result page reader: entity decoding and keeping the best
  result per artist;
- the CORS origin check and the client-address choice of the middleware;
- configuration loading.

Each regular expression is written out as a matcher over `seq<char>`.
The matcher follows the engine's priority order, and its soundness and
completeness are proved where the text depends on them. For example,
`ChordGrammar.MatchSound` and `ChordGrammar.MatchSpelled` relate the chord
pattern to a `ChordSymbol` datatype.

## Modelling choices

Inputs the model cannot compute:

- Python's `float()` is the exact decimal value (`Numbers.PyFloat`), not
  the nearest double.
- An exception is the `Raises` result. The reading loses the whole meter
  exactly as the source's `try`/`except` does.
- The fetched MidCity page is abstracted as its strings, option values,
  text and scripts. A meter card is abstracted as its text, data
  attributes and element texts.
- The worshipchords HTML tree is a `Node` datatype.
- JSON decoding of the search store is a parameter (`parse`).
- The environment and the options file are parameters of `Config.Load`.

Go map iteration order is a parameter wherever it can change the result:

- the key table in `DetectKey`;
- the entity map in `decodeHTMLEntities`;
- the artist map in `filterTopResults`.

The lemmas then say which results do not depend on that order.

Other choices:

- `sort.Slice` in `AnalyzeChords` is not stable. The model sorts stably,
  and its lemmas state only what every order satisfying the comparison
  shares.
- `%.0f` is modelled as rounding half to even (`ChordAnalysis.RoundHalfEven`).
- `isChordLine` has two middle branches that repeat the first branch's
  condition, so they can never be taken. The model keeps the reachable
  logic.
- Python's `str.lower()`, `str.title()`, `\d` and `\b` are read on ASCII
  letters and digits only (see "Left out").
- Go's `strings.ToLower` lowers every Unicode capital. The model's
  `Text.GoLower` lowers only the ASCII capitals, `İ` and the Kelvin sign,
  the capitals whose lower-case form is an ASCII letter. Its result is only
  compared with ASCII words, and every other capital lower-cases to a
  character that is not ASCII, so those comparisons come out the same. Go's RE2 `\w` and `\s` are ASCII
  classes, and `strings.Fields` splits at Unicode white space, as the
  model does.

Behaviours of the source that the model reproduces and proves:

- `"dim"` contains an `m`, so a diminished chord is classified minor and
  never reaches the diminished degree (`ChordAnalysis.DiminishedDegreeQuirk`).
- A bare `C#` at the end of a text is bracketed as `[C]#`. The pattern's
  closing `\b` cannot hold between `#` and the end of the text, since
  neither side is a word character, so the match backs off to `C`, where
  `\b` holds between `C` and `#` (`ChordGrammar.SharpOutsideBrackets`).
- The section-header pattern ends in `\s*$` under `(?m)`. Its `\s*` can
  cross line ends and swallow the blank line after a header
  (`Sections.HeaderSwallowsBlankLine`).
- `&amp;` is decoded in a map-ordered loop. `&amp;lt;` therefore becomes
  `<` or `&lt;` depending on the order (`Search.AmpFirstDecodesTwice`,
  `Search.AmpLaterDecodesOnce`). Without `&amp;` the order makes no
  difference (`Search.DecodeOrderIndependent`).
- The single word `A` is also the article "a", so `A x` is lyrics while
  `G x` is a chord row (`WorshipFormat.ChordAReadAsArticle`).

## Model

| member | source | states |
|---|---|---|
| MidCity.Uncomma | MidCity-Utilities/midcity_sensor.py:416-418 | Removing the thousands separators deletes every comma and nothing else. |
| MidCity.UncommaJoin | MidCity-Utilities/midcity_sensor.py:416-418 | An amount such as `1,234.56` reads as `1234.56`. |
| MidCity.AmountGroup | MidCity-Utilities/midcity_sensor.py:416-418 | There is an amount exactly when the pattern has a leftmost match in the card text. |
| MidCity.WaterUnit | MidCity-Utilities/midcity_sensor.py:429-432 | There is a water unit exactly when there is a water balance. The unit is litres or cubic metres, and cubic metres whenever the matched unit contains an m. |
| MidCity.MatchCard | MidCity-Utilities/midcity_sensor.py:411-465 | Each of the four balance patterns gives an amount exactly when it matches the card text. |
| MidCity.KwhStep | MidCity-Utilities/midcity_sensor.py:415-425 | The kWh unit is set whenever the pattern matches, even when the amount does not convert. A balance is found exactly when it converts, and it is never negative. |
| MidCity.WaterStep | MidCity-Utilities/midcity_sensor.py:427-438 | The water step runs only while the balance is falsy. When it runs, it sets the unit the text names, and any balance it finds is never negative. |
| MidCity.RandStep | MidCity-Utilities/midcity_sensor.py:440-453 | The rand step runs only while the balance is falsy. A balance it takes is in ZAR and never negative. |
| MidCity.DecimalStep | MidCity-Utilities/midcity_sensor.py:455-465 | The decimal step runs only while the balance is falsy. It never changes the unit. |
| MidCity.Cascade | MidCity-Utilities/midcity_sensor.py:411-465 | Whatever the cascade returns as a balance is never negative. |
| MidCity.CardBalance | MidCity-Utilities/midcity_sensor.py:380-465 | The card's balance, read from its text, is never negative. |
| MidCity.CascadeRaises | MidCity-Utilities/midcity_sensor.py:440-446 | The cascade raises exactly when it reaches an `R` amount made only of commas, which the guard converts outside the try. |
| MidCity.KwhSettles | MidCity-Utilities/midcity_sensor.py:415-438 | A non-zero kWh balance settles the card, and the later strategies are not consulted. |
| MidCity.ZeroFallsThrough | MidCity-Utilities/midcity_sensor.py:415-438 | A zero kWh balance is falsy, so a converting water amount replaces it together with its unit. |
| MidCity.RandGuard | MidCity-Utilities/midcity_sensor.py:442-446 | An `R` amount without a decimal point and of 100000 or more is taken for a meter number and passed over. |
| MidCity.RandTaken | MidCity-Utilities/midcity_sensor.py:442-450 | Any other converting `R` amount becomes the balance, in ZAR. |
| MidCity.CardNumber | MidCity-Utilities/midcity_sensor.py:386-409 | The meter number comes from the data attributes first, then from the number element, and otherwise it is an all-digit number from the text. |
| MidCity.TextNumber | MidCity-Utilities/midcity_sensor.py:399-409 | The number taken from the text is all digits. It is a whole run of 8 to 12 digits when one stands alone. It is empty exactly when neither pattern matches. |
| MidCity.TypeOfUnit | MidCity-Utilities/midcity_sensor.py:470-476 | kWh means electricity, litres or cubic metres mean water, and ZAR means prepaid. Without a unit the type is unknown. |
| MidCity.KeywordType | MidCity-Utilities/midcity_sensor.py:492-500 | The lower-cased text decides the type by keyword: "electric" before "water" before "gas", and otherwise unknown. |
| MidCity.CardType | MidCity-Utilities/midcity_sensor.py:467-504 | The type written to the reading is lower-case. |
| MidCity.ElementDecidesType | MidCity-Utilities/midcity_sensor.py:482-490 | Without a unit or a set attribute, a type element decides the type by its stripped text, lower-cased. An element with empty text gives the empty type, and the keywords are not consulted. |
| MidCity.UnitDecidesType | MidCity-Utilities/midcity_sensor.py:470-476 | A unit decides the type, whatever the attributes and elements say. |
| MidCity.AttributeDecidesType | MidCity-Utilities/midcity_sensor.py:478-480 | Without a unit, a set data attribute decides the type, lower-cased. |
| MidCity.KeywordsDecideType | MidCity-Utilities/midcity_sensor.py:492-500 | Without a unit, attribute or type element, the keywords decide the type. |
| MidCity.ParseMeterCard | MidCity-Utilities/midcity_sensor.py:374-511 | The card gives a reading exactly when the stripped number is non-empty and a balance was found. The call raises exactly when the rand guard raises. The reading's unit defaults to kWh. |
| MidCity.SelectNumber | MidCity-Utilities/midcity_sensor.py:121-127 | A number from a "Select Meter" string is 8 to 12 digits. There is none exactly when no string contains "Select Meter", or the first one that does has no run of 8 digits. |
| MidCity.SelectNumberFirstHit | MidCity-Utilities/midcity_sensor.py:121-127 | Only the first string containing "Select Meter" is searched. The number is its first 8-to-12-digit match, or none when that string has no match. |
| MidCity.PageAccountNumber | MidCity-Utilities/midcity_sensor.py:140-146 | A number after "Meter" or "Account" is 10 to 12 digits. It is empty exactly when the pattern does not match. |
| MidCity.PageNumber | MidCity-Utilities/midcity_sensor.py:119-146 | The page number is either 8 to 12 digits or the whole value of an option that starts with eight digits. It is empty exactly when all three strategies fail. |
| MidCity.PageNumberFirstHit | MidCity-Utilities/midcity_sensor.py:119-146 | The strategies are tried in order. A "Select Meter" number wins. Failing that, the first option value starting with eight digits wins. Only when no option qualifies is the page text searched. |
| MidCity.ChartNumber | MidCity-Utilities/midcity_sensor.py:155-172 | A chart script states a number exactly when the "Current balance" pattern or the kWh-series pattern matches. When the "Current balance" pattern matches, its group is the number; the kWh-series group is used only when it does not. |
| MidCity.ChartNumbers | MidCity-Utilities/midcity_sensor.py:153-155 | Scripts that are not chart scripts state no number. |
| MidCity.Convert | MidCity-Utilities/midcity_sensor.py:159-172 | `float()` raises exactly on a malformed number. Otherwise it gives a non-negative balance. |
| MidCity.ScriptBalance | MidCity-Utilities/midcity_sensor.py:152-172 | A balance read from the scripts is never negative. |
| MidCity.FirstStated | MidCity-Utilities/midcity_sensor.py:152-172 | This is the position of the first script that states a number. Every script before it states none. |
| MidCity.ScriptBalanceFirst | MidCity-Utilities/midcity_sensor.py:152-172 | The first stated number decides the script balance: none gives no balance, a malformed one raises, and any other is the balance. |
| MidCity.HtmlAmount | MidCity-Utilities/midcity_sensor.py:174-182 | Without a string stating the balance line, the fallback has no amount. |
| MidCity.PageBalanceOf | MidCity-Utilities/midcity_sensor.py:174-185 | The text's amount replaces the scripts' balance only while that balance is falsy. A raise propagates. The result stays non-negative. |
| MidCity.ZeroChartFallsBack | MidCity-Utilities/midcity_sensor.py:174-185 | A zero chart balance falls back to the text's amount when it converts. It stays zero when the text has none, and raises on a malformed one. |
| MidCity.PredictedZeroDate | MidCity-Utilities/midcity_sensor.py:187-204 | There is a date exactly when the ISO pattern or the day/month/year pattern matches. |
| MidCity.PredictedDateShape | MidCity-Utilities/midcity_sensor.py:187-204 | An ISO date, when there is one, wins and has the `YYYY-MM-DD` shape. Otherwise the date has the day/month/year shape. |
| MidCity.GetMeterData | MidCity-Utilities/midcity_sensor.py:206-231 | The page gives one electricity reading in kWh exactly when a number is found and the balance neither raises nor is missing. The reading carries the predicted date. |
| MidCity.MalformedChartNumber | MidCity-Utilities/midcity_sensor.py:159-172 | A malformed chart number loses the whole reading, whatever else the page says. |
| MidCity.PageReadingShape | MidCity-Utilities/midcity_sensor.py:119-227 | A page reading has a non-negative balance and a meter number of an accepted shape. |
| MidCity.EntityId | MidCity-Utilities/midcity_sensor.py:678 | The entity id is `sensor.midcity_`, then the type, then `_`, then the number as an id writes it (blanks as underscores, lower case); each segment is stated by position. |
| MidCity.UniqueId | MidCity-Utilities/midcity_sensor.py:680 | The unique id is `midcity_`, then the type, then `_`, then the raw number, unchanged; each segment is stated by position. |
| MidCity.IdNumberEach | MidCity-Utilities/midcity_sensor.py:678 | Character by character, the id writes a blank as an underscore and lower-cases a capital. |
| MidCity.IdNumberFixed | MidCity-Utilities/midcity_sensor.py:678 | The id keeps the number unchanged exactly when it has no blank and no capital. |
| MidCity.EntityIdIsUniqueId | MidCity-Utilities/midcity_sensor.py:678-680 | The entity id is `sensor.` followed by the unique id exactly when the number has no blank and no capital. |
| MidCity.DeviceClass | MidCity-Utilities/midcity_sensor.py:683-694 | Electricity is an energy sensor, water is a water sensor, and any other type is money. Each class has its icon, and money keeps its unit. |
| MidCity.PageReadingIsEnergy | MidCity-Utilities/midcity_sensor.py:206-227 | A page reading is an energy sensor in kWh. |
| MidCity.RandCardIsMoney | MidCity-Utilities/midcity_sensor.py:470-476 | A card read in rand is a prepaid meter and becomes a money sensor in ZAR. |
| MidCity.Title | MidCity-Utilities/midcity_sensor.py:697 | `str.title()` keeps the length. |
| MidCity.TitleEach | MidCity-Utilities/midcity_sensor.py:697 | A letter is upper-cased when it starts a word and lower-cased otherwise. Other characters are kept. |
| MidCity.FriendlyName | MidCity-Utilities/midcity_sensor.py:697 | The name is `MidCity ` followed by the titled type, of the type's length. |
| ChordGrammar.MatchAt | ChordScraper/pkg/chordanalysis/chordanalysis.go:100 | A match of the chord pattern lies inside the text and satisfies the anchor. |
| ChordGrammar.QualityOrigin | ChordScraper/pkg/chordanalysis/chordanalysis.go:100 | A match comes from one quality alternative that fits at that place, or from the empty quality. |
| ChordGrammar.MatchSound | ChordScraper/pkg/chordanalysis/chordanalysis.go:100 | Every match spells a well-formed chord symbol. |
| ChordGrammar.MatchSpelled | ChordScraper/pkg/chordanalysis/chordanalysis.go:100 | Wherever a well-formed chord is spelled and the anchor accepts its end, the matcher reports exactly that chord. |
| ChordGrammar.LongestDigitsFirst | ChordScraper/pkg/chordanalysis/chordanalysis.go:100 | The longest digit run is tried first. |
| ChordGrammar.QualitiesFrom | ChordScraper/pkg/chordanalysis/chordanalysis.go:100 | The quality alternatives are tried in the pattern's order. |
| ChordGrammar.ChordTokenIff | ChordScraper/pkg/worshipchords/worshipchords.go:329-336 | A word matches the anchored chord pattern exactly when it spells a well-formed chord symbol. |
| ChordGrammar.Bracketed | ChordScraper/pkg/chordanalysis/chordanalysis.go:100-101 | The texts of all non-overlapping `[CHORD]` matches, left to right. BracketedSound proves each spells a well-formed chord symbol, and BracketedSheet that on a chord sheet they are exactly its chords in order. |
| ChordGrammar.ScanSound | ChordScraper/pkg/chordanalysis/chordanalysis.go:98-112 | Every text the bracket scan returns spells a chord. |
| ChordGrammar.BracketedSound | ChordScraper/pkg/chordanalysis/chordanalysis.go:98-112 | Every text found in brackets is a well-formed chord. |
| ChordGrammar.ScanSheet | ChordScraper/pkg/chordanalysis/chordanalysis.go:98-112 | On a chord sheet the scan returns exactly the sheet's chords, in order. |
| ChordGrammar.BracketedSheet | ChordScraper/pkg/chordanalysis/chordanalysis.go:98-112 | Bracket extraction returns exactly the chords of a sheet, in order. |
| ChordGrammar.NoOpenNoChords | ChordScraper/pkg/chordanalysis/chordanalysis.go:98-112 | A text without `[` has no chords. |
| ChordGrammar.CloseFindsChords | ChordScraper/pkg/chordanalysis/chordanalysis.go:100 | The matcher finds every bracketed chord as itself. |
| ChordGrammar.BoundaryMatch | ChordScraper/pkg/worshipchords/worshipchords.go:300 | A `\b` chord match lies inside the text. |
| ChordGrammar.WrapChords | ChordScraper/pkg/worshipchords/worshipchords.go:297-306 | Every `\bCHORD\b` match, leftmost first and without overlap, is put between brackets. WrapUnbracket proves that only brackets are inserted, and WrapNoChord that a text without a match is unchanged. |
| ChordGrammar.WrapUnbracket | ChordScraper/pkg/worshipchords/worshipchords.go:297-306 | Wrapping only inserts brackets: removing them gives the input back. |
| ChordGrammar.WrapKeepsOut | ChordScraper/pkg/worshipchords/worshipchords.go:297-306 | Wrapping adds no character other than brackets. |
| ChordGrammar.WrapNoChord | ChordScraper/pkg/worshipchords/worshipchords.go:297-306 | A text without a `\b` chord match is unchanged. |
| ChordGrammar.SharpOutsideBrackets | ChordScraper/pkg/worshipchords/worshipchords.go:300 | A bare `C#` is wrapped as `[C]#`: the closing `\b` fails between `#` and the end of the text, so the match backs off to `C`. |
| ChordGrammar.SharpMatches | ChordScraper/pkg/worshipchords/worshipchords.go:300 | In `C#` the pattern matches `C` at the start and matches nothing at the sharp. |
| ChordAnalysis.QualityType | ChordScraper/pkg/chordanalysis/chordanalysis.go:81-88 | A quality is minor exactly when it has an `m` but no `maj`, decided in the order the source tries the classes. |
| ChordAnalysis.DimIsMinor | ChordScraper/pkg/chordanalysis/chordanalysis.go:81-88 | `dim` without `maj` is classified minor. |
| ChordAnalysis.DiminishedNeedsMaj | ChordScraper/pkg/chordanalysis/chordanalysis.go:81-88 | The diminished class is reached only when `maj` is present as well. |
| ChordAnalysis.ParseChord | ChordScraper/pkg/chordanalysis/chordanalysis.go:64-95 | The text is trimmed of brackets and spaces. A root is found exactly when the text starts with A–G and has no line break after that first character, since `(.*?)$` cannot cross one. The rest of the text decides the quality. |
| ChordAnalysis.CleanSpelled | ChordScraper/pkg/chordanalysis/chordanalysis.go:66-67 | An extracted chord needs no trimming. |
| ChordAnalysis.ParseSpelled | ChordScraper/pkg/chordanalysis/chordanalysis.go:64-95 | A well-formed chord parses to its letter and accidental as the root, and the class of the rest. |
| ChordAnalysis.ForKey | ChordScraper/pkg/chordanalysis/chordanalysis.go:215-220 | The name used for key detection is the root, followed by `m` exactly for minor chords. |
| ChordAnalysis.NormalizeChord | ChordScraper/pkg/chordanalysis/chordanalysis.go:223-231 | The result is the longest `[A-G][#b]?m?` prefix, or the text itself when there is none. |
| ChordAnalysis.NormalizeIdempotent | ChordScraper/pkg/chordanalysis/chordanalysis.go:223-231 | Normalising twice changes nothing. |
| ChordAnalysis.ScaleOf | ChordScraper/pkg/chordanalysis/chordanalysis.go:40-58 | Every key of the table has a seven-chord scale starting at the key. |
| ChordAnalysis.KeyNamesComplete | ChordScraper/pkg/chordanalysis/chordanalysis.go:40-58 | The table holds exactly the listed keys. |
| ChordAnalysis.ScaleIndexFrom | ChordScraper/pkg/chordanalysis/chordanalysis.go:194-196 | This is the first scale degree whose chord normalises like the name, and no earlier degree does. |
| ChordAnalysis.NumeralSuffix | ChordScraper/pkg/chordanalysis/chordanalysis.go:199-205 | At most one suffix is added: `M7` for `maj7`, else `7`, else `sus`. |
| ChordAnalysis.ScaleIndex | ChordScraper/pkg/chordanalysis/chordanalysis.go:194-196 | The index is the first scale position whose note normalizes like the chord. None means that no position does. |
| ChordAnalysis.NashvilleNumber | ChordScraper/pkg/chordanalysis/chordanalysis.go:186-212 | The number is `?` outside the table or the scale. Otherwise it is the first matching degree's numeral plus the suffix. |
| ChordAnalysis.TonicIsOne | ChordScraper/pkg/chordanalysis/chordanalysis.go:186-212 | The tonic of every key is degree I. |
| ChordAnalysis.DiminishedDegreeQuirk | ChordScraper/pkg/chordanalysis/chordanalysis.go:81-88 | In C, `Bdim` gets no numeral because it is parsed as minor. |
| ChordAnalysis.SeventhDegreeMajor | ChordScraper/pkg/chordanalysis/chordanalysis.go:186-212 | In C the seventh degree is reached by a plain B major chord. |
| ChordAnalysis.DiminishedParsedMinor | ChordScraper/pkg/chordanalysis/chordanalysis.go:81-88 | A plain diminished chord is counted as its minor chord in key detection. |
| ChordAnalysis.Distinct | ChordScraper/pkg/chordanalysis/chordanalysis.go:121-125 | The keys of the count map are the chords, each listed once. |
| ChordAnalysis.TallyOf | ChordScraper/pkg/chordanalysis/chordanalysis.go:130-152 | A key scores above zero exactly when some chord lies in its scale. The score is never negative. |
| ChordAnalysis.KeyScore | ChordScraper/pkg/chordanalysis/chordanalysis.go:130-158 | A key that scores is in the table and scores above zero. |
| ChordAnalysis.PickBest | ChordScraper/pkg/chordanalysis/chordanalysis.go:162-169 | The best key has the highest score among the visited keys. A later key replaces it only with a strictly higher score. |
| ChordAnalysis.DetectKey | ChordScraper/pkg/chordanalysis/chordanalysis.go:115-183 | No chords give no key and zero confidence. A detected key scores highest of all keys. No key is detected exactly when no key scores. |
| ChordAnalysis.BestWithinTotal | ChordScraper/pkg/chordanalysis/chordanalysis.go:162-180 | The best score is at most the total, so the confidence is at most 100. |
| ChordAnalysis.DetectKeyOrderIndependent | ChordScraper/pkg/chordanalysis/chordanalysis.go:162-169 | When one key scores strictly highest, the map order does not change the result. |
| ChordAnalysis.ExtractChords | ChordScraper/pkg/chordanalysis/chordanalysis.go:98-112 | There is one parsed chord per bracketed chord, in order. |
| ChordAnalysis.ExtractedSpelled | ChordScraper/pkg/chordanalysis/chordanalysis.go:98-112 | Every extracted chord keeps its text as written and has a root. |
| ChordAnalysis.ExtractSheet | ChordScraper/pkg/chordanalysis/chordanalysis.go:98-112 | A chord sheet yields exactly its chords. |
| ChordAnalysis.Insert | ChordScraper/pkg/chordanalysis/chordanalysis.go:238-248 | Insertion adds the name to the set of listed names. |
| ChordAnalysis.InsertSorted | ChordScraper/pkg/chordanalysis/chordanalysis.go:238-248 | Insertion keeps the list strictly ordered. |
| ChordAnalysis.SortDistinct | ChordScraper/pkg/chordanalysis/chordanalysis.go:238-248 | The unique chords are exactly the chords. |
| ChordAnalysis.SortDistinctSorted | ChordScraper/pkg/chordanalysis/chordanalysis.go:238-248 | The unique chords are strictly ascending. |
| ChordAnalysis.SortedUnique | ChordScraper/pkg/chordanalysis/chordanalysis.go:238-248 | Any two ascending lists of the same names are equal. |
| ChordAnalysis.SumOccurrencesLength | ChordScraper/pkg/chordanalysis/chordanalysis.go:238-264 | The counts of the distinct chords add up to the number of chords. |
| ChordAnalysis.Listing | ChordScraper/pkg/chordanalysis/chordanalysis.go:254-264 | There is one progression per unique chord, in that order. |
| ChordAnalysis.ListingSum | ChordScraper/pkg/chordanalysis/chordanalysis.go:254-264 | The progressions' counts are the chords' occurrence counts. |
| ChordAnalysis.InsertByCount | ChordScraper/pkg/chordanalysis/chordanalysis.go:267-269 | Inserting adds exactly one entry. |
| ChordAnalysis.InsertByCountOrdered | ChordScraper/pkg/chordanalysis/chordanalysis.go:267-269 | Inserting keeps the counts non-increasing. |
| ChordAnalysis.SortByCount | ChordScraper/pkg/chordanalysis/chordanalysis.go:267-269 | Sorting is a permutation. |
| ChordAnalysis.SortByCountOrdered | ChordScraper/pkg/chordanalysis/chordanalysis.go:267-269 | The sorted counts never increase. |
| ChordAnalysis.AnalyzeChords | ChordScraper/pkg/chordanalysis/chordanalysis.go:234-278 | The unique chords are the chord texts. There is one progression per unique chord. The confidence lies between 0 and 100. |
| ChordAnalysis.AnalysisShape | ChordScraper/pkg/chordanalysis/chordanalysis.go:234-278 | The unique chords are ascending, the progressions run from most to least frequent, and the counts add up to the number of chords. |
| ChordAnalysis.AnalysisEntries | ChordScraper/pkg/chordanalysis/chordanalysis.go:254-264 | Each unique chord has a progression with its count and its numeral in the detected key. |
| ChordAnalysis.UniqueCanonical | ChordScraper/pkg/chordanalysis/chordanalysis.go:238-248 | The unique-chord list does not depend on the map order. |
| ChordAnalysis.RoundHalfEven | ChordScraper/pkg/chordanalysis/chordanalysis.go:172-180 | `%.0f` gives the nearest integer, ties to even. |
| ChordAnalysis.FormatHeader | ChordScraper/pkg/chordanalysis/chordanalysis.go:281-301 | The header is empty exactly when there are no progressions. |
| ChordAnalysis.HeaderLinesBack | ChordScraper/pkg/chordanalysis/chordanalysis.go:281-301 | Split into lines, the header reads back as the key line, a blank line, the title and one line per progression. |
| Sections.IsSectionLine | ChordScraper/pkg/worshipchords/worshipchords.go:233 | The line, without its trailing `\s` characters, is one of the section names, case-sensitive and anchored at both ends. SectionLineIff states the exact set of lines that pass. |
| Sections.SectionLineIff | ChordScraper/pkg/worshipchords/worshipchords.go:233 | A line passes the test exactly when it is a section name followed only by white space. |
| Sections.NameHasNoClose | ChordScraper/handlers/formatting.go:79 | A section name never contains `]`. |
| Sections.HeaderAt | ChordScraper/handlers/formatting.go:79-80 | A header match lies inside the text, after its `]`. |
| Sections.HeaderAtSound | ChordScraper/handlers/formatting.go:79-80 | What the engine finds is a match, and no longer match ends at the same bracket. |
| Sections.HeaderAtComplete | ChordScraper/handlers/formatting.go:79-80 | Wherever the pattern can match, the engine finds a match there. |
| Sections.ConvertHeaders | ChordScraper/handlers/formatting.go:79-80 | Each bracketed header line is replaced by its name and a colon. ConvertHeaderStep proves the rewrite and resume, and ConvertNoHeader that a text without a header is unchanged. |
| Sections.ConvertHeaderStep | ChordScraper/handlers/formatting.go:79-80 | A header becomes its name and a colon, and the conversion resumes after the match. |
| Sections.ConvertNoHeader | ChordScraper/pkg/ultimateguitar/onsong.go:22-23 | A text without a header is unchanged. |
| Sections.LowerCaseHeader | ChordScraper/pkg/ultimateguitar/onsong.go:22-23 | `[chorus]` becomes `chorus:`: case is ignored and the spelling is kept. |
| Sections.HeaderSwallowsBlankLine | ChordScraper/handlers/formatting.go:79 | `\s*` runs past the line end, so the blank line after a header is swallowed. |
| Sections.ChorusTail | ChordScraper/handlers/formatting.go:79-80 | After that match only `\nG` is left. |
| WorshipFormat.ContainsCommonWords | ChordScraper/pkg/worshipchords/worshipchords.go:371-397 | Some lower-cased word of the line, stripped of the listed punctuation at both ends, is one of the source's common words. CommonWordVeto proves that such a word vetoes a line that is not all chords. |
| WorshipFormat.IsChordLine | ChordScraper/pkg/worshipchords/worshipchords.go:315-368 | A chord row has at least one chord word, and at least half of its words are chords. |
| WorshipFormat.ChordCount | ChordScraper/pkg/worshipchords/worshipchords.go:329-336 | Every word is a chord exactly when the count is the number of words. No word is a chord exactly when the count is zero. |
| WorshipFormat.AllChordsIsChordLine | ChordScraper/pkg/worshipchords/worshipchords.go:338-341 | A line whose every word is a chord is a chord row. |
| WorshipFormat.NoChordNotChordLine | ChordScraper/pkg/worshipchords/worshipchords.go:317-368 | A line without a chord is never a chord row. |
| WorshipFormat.CommonWordVeto | ChordScraper/pkg/worshipchords/worshipchords.go:358-360 | A common word vetoes a line that is not all chords. |
| WorshipFormat.HalfChordsIsChordLine | ChordScraper/pkg/worshipchords/worshipchords.go:363-365 | Without a common word, chords in at least half of the words make a chord row. |
| WorshipFormat.ChordAReadAsArticle | ChordScraper/pkg/worshipchords/worshipchords.go:371-397 | The chord `A` counts as the word "a", so `A x` is lyrics. |
| WorshipFormat.OtherLetterChordRow | ChordScraper/pkg/worshipchords/worshipchords.go:363-365 | `G x` is a chord row. |
| WorshipFormat.Place | ChordScraper/pkg/worshipchords/worshipchords.go:236-284 | One input line writes at most one line. Lines already written, and their kinds, are never changed. |
| WorshipFormat.PlaceKeepsLayout | ChordScraper/pkg/worshipchords/worshipchords.go:236-284 | Every line keeps the layout well formed: no leading blank, no two blanks in a row, no line break inside a line. |
| WorshipFormat.Run | ChordScraper/pkg/worshipchords/worshipchords.go:235-285 | Each input line writes at most one line. The lines and kinds that were there before are never changed. |
| WorshipFormat.RunKeepsLayout | ChordScraper/pkg/worshipchords/worshipchords.go:235-285 | Processing all lines keeps the layout well formed. |
| WorshipFormat.Collapse | ChordScraper/pkg/worshipchords/worshipchords.go:291 | The result never holds three newlines in a row. It is no longer than the text, is empty only for an empty text, and starts with a newline exactly when the text does. |
| WorshipFormat.CollapseJoin | ChordScraper/pkg/worshipchords/worshipchords.go:287-291 | Joining such lines never gives three newlines in a row, so the clean-up changes nothing. |
| WorshipFormat.FormatChordContent | ChordScraper/pkg/worshipchords/worshipchords.go:223-294 | The output neither starts nor ends with white space, and it has no three line breaks in a row. |
| WorshipFormat.FormatLayout | ChordScraper/pkg/worshipchords/worshipchords.go:223-294 | The output is the trimmed join of a well-formed layout, and the blank-run clean-up never has anything to do. |
| WorshipPage.FirstNonEmpty | ChordScraper/pkg/worshipchords/worshipchords.go:107-125 | The result is one of the strings, and it is empty exactly when all of them are. |
| WorshipPage.SearchFirstAnswer | ChordScraper/pkg/worshipchords/worshipchords.go:107-141 | The recursive search returns the first non-empty answer in document order. |
| WorshipPage.ExtractText | ChordScraper/pkg/worshipchords/worshipchords.go:144-164 | The text nodes' text and a newline for each `<br>`, in document order. ExtractTextEmpty proves the text is empty exactly when the subtree holds neither. |
| WorshipPage.ExtractTextEmpty | ChordScraper/pkg/worshipchords/worshipchords.go:144-164 | The extracted text is empty exactly when the subtree holds no text and no line break. |
| WorshipPage.SongChordsFirst | ChordScraper/pkg/worshipchords/worshipchords.go:107-141 | The song text is the first non-empty `<pre>` text under the first chord `<div>` that has one. |
| WorshipPage.MetaAnswer | ChordScraper/pkg/worshipchords/worshipchords.go:167-191 | A meta tag answers only with the exact property and a non-empty content, and it returns that content. |
| WorshipPage.SplitTitle | ChordScraper/pkg/worshipchords/worshipchords.go:76-89 | A title without ` - ` is kept whole. Otherwise the artist holds no separator. |
| WorshipPage.SplitTitleParts | ChordScraper/pkg/worshipchords/worshipchords.go:82-88 | The song is the text before the first ` - `, with its first ` Chords` removed. The artist is the text between the first and the second ` - `. Both are trimmed, and anything after a second ` - ` is dropped. |
| WorshipPage.SplitTitleRoundTrip | ChordScraper/pkg/worshipchords/worshipchords.go:83-89 | `NAME Chords - ARTIST` splits back into the name and the artist. This holds when ` Chords` does not occur in the name, ` - ` occurs in neither part, and neither part has white space at its ends. |
| WorshipPage.KeyAt | ChordScraper/pkg/worshipchords/worshipchords.go:212-220 | A key found is non-empty, has no quote, and is closed by a quote. |
| WorshipPage.ExtractKey | ChordScraper/pkg/worshipchords/worshipchords.go:212-220 | A key found occurs as `data-key="KEY"` in the content. It is the leftmost match, and the key is empty exactly when nothing matches. |
| WorshipPage.ExtractFirstKey | ChordScraper/pkg/worshipchords/worshipchords.go:212-220 | The first `data-key` attribute gives the key. |
| WorshipPage.GetSong | ChordScraper/pkg/worshipchords/worshipchords.go:37-104 | A foreign address is rejected with the source's message, and a page without chord content is an error. Otherwise the result carries the address, the laid-out content and the key. |
| Formatting.WrapLine | ChordScraper/handlers/formatting.go:12-68 | A line changes only when it is not exempt, holds a `\b` chord and is chord-shaped, and every such line has all its chord matches bracketed. |
| Formatting.LyricLineKept | ChordScraper/handlers/formatting.go:38-60 | A lyric line is kept unchanged when it has both a word starting lower-case and more than three words. |
| Formatting.ChordRowWrapped | ChordScraper/handlers/formatting.go:38-60 | A line that is not exempt and has a `\b` chord is wrapped as a whole when no word starts lower-case, and also when it has at most three words, as in "Am I right". |
| Formatting.WrapLineUnbracket | ChordScraper/handlers/formatting.go:12-68 | Only brackets are added. |
| Formatting.WrapLineOneLine | ChordScraper/handlers/formatting.go:12-68 | A line is never split. |
| Formatting.WrapLinesLineByLine | ChordScraper/handlers/formatting.go:12-68 | The output has the input's lines, each processed on its own. |
| Formatting.WrapLinesUnbracket | ChordScraper/handlers/formatting.go:12-68 | On a text without brackets, removing the brackets gives the text back. |
| Formatting.HeaderKey | ChordScraper/handlers/formatting.go:90-97 | The key written is the detected one, else the given one, else C. It is never empty. |
| Formatting.FormatWithNashville | ChordScraper/handlers/formatting.go:72-108 | The output ends with the prepared song text. |
| Formatting.ReadNashville | ChordScraper/handlers/formatting.go:72-108 | The output reads back as six header lines, then the prepared text: song, artist, key, tempo, time signature, blank line. |
| OnSong.OnSongKey | ChordScraper/pkg/ultimateguitar/onsong.go:34-37 | The detected key wins. Otherwise the tab's tonality is used, even when it is empty. |
| OnSong.ConvertToOnSong | ChordScraper/pkg/ultimateguitar/onsong.go:12-46 | The output ends with the converted text. |
| OnSong.ReadOnSong | ChordScraper/pkg/ultimateguitar/onsong.go:29-43 | The output reads back as the song, the artist, the key line and a blank line, then the converted text. |
| OnSong.StripMarkup | ChordScraper/pkg/ultimateguitar/onsong.go:16-19 | The four markup rewrites, in the source's order. StripPlain proves a text without `[` is unchanged, and StripChordTag that `[ch]C[/ch]` becomes `[C]`. |
| OnSong.StripPlain | ChordScraper/pkg/ultimateguitar/onsong.go:16-19 | A text without `[` is unchanged by the four rewrites. |
| OnSong.StripChordTag | ChordScraper/pkg/ultimateguitar/onsong.go:16-19 | `[ch]C[/ch]` becomes `[C]`. |
| OnSong.MarkupSinglePass | ChordScraper/pkg/ultimateguitar/onsong.go:16-19 | Each rewrite runs once, so `[ta[tab]b]` leaves `[tab]`. |
| OnSong.PlainTabVerbatim | ChordScraper/pkg/ultimateguitar/onsong.go:12-46 | A tab without brackets is written verbatim, and its key line is the tab's tonality. |
| Search.TableShaped | ChordScraper/handlers/search.go:137-143 | There are five entities, and only `&amp;` decodes to a character that starts a name. |
| Search.PassExtends | ChordScraper/handlers/search.go:146-148 | One pass adds one entity to a simultaneous decoding. |
| Search.PassesDecode | ChordScraper/handlers/search.go:145-148 | The passes in any order decode simultaneously, as long as `&amp;` does not occur. |
| Search.DecodeHtmlEntities | ChordScraper/handlers/search.go:136-151 | One replace-all pass per entity, in the map order given. DecodeOrderFree compares it with a one-pass decoder, and NoAmpersandUnchanged proves that a text without `&` is unchanged. |
| Search.DecodeOrderFree | ChordScraper/handlers/search.go:136-151 | Without `&amp;`, decoding is one left-to-right scan. |
| Search.DecodeOrderIndependent | ChordScraper/handlers/search.go:136-151 | Without `&amp;`, the map order makes no difference. |
| Search.NoAmpersandUnchanged | ChordScraper/handlers/search.go:136-151 | A text without `&` is unchanged. |
| Search.AmpFirstDecodesTwice | ChordScraper/handlers/search.go:137-148 | With `&amp;` decoded first, `&amp;lt;` becomes `<`. |
| Search.AmpLaterDecodesOnce | ChordScraper/handlers/search.go:137-148 | With `&lt;` decoded first, `&amp;lt;` becomes `&lt;`. |
| SearchResults.FindStore | ChordScraper/handlers/search.go:87-92 | There is a value exactly when the pattern matches. No match starts before the one taken. Of the matches from that `<div`, the greedy `[^>]*` takes the last `data-content`. |
| SearchResults.ParseSearchResults | ChordScraper/handlers/search.go:85-133 | A page without the store gives no results and no error. |
| SearchResults.NoStoreNoResults | ChordScraper/handlers/search.go:87-92 | A page without the store's tag has no results. |
| SearchResults.ArtistKey | ChordScraper/handlers/search.go:159-162 | An empty artist is filed under `Unknown`. |
| SearchResults.BetterOrder | ChordScraper/handlers/search.go:164-180 | The replacement rule is a strict weak order. |
| SearchResults.TopUpToKept | ChordScraper/handlers/search.go:158-181 | The loop keeps the first best result of each artist. |
| SearchResults.FilterTopResults | ChordScraper/handlers/search.go:154-190 | There is one output per map key, each taken from the input. |
| SearchResults.FilterOnePerArtist | ChordScraper/handlers/search.go:154-190 | No two outputs share an artist. |
| SearchResults.FilterCoversArtists | ChordScraper/handlers/search.go:154-190 | Every artist is represented. |
| SearchResults.FilterBest | ChordScraper/handlers/search.go:154-190 | No result of an artist beats its output. |
| SearchResults.TiesKeepFirst | ChordScraper/handlers/search.go:164-180 | Among equal results the first is kept. |
| SearchResults.ChordsWin | ChordScraper/handlers/search.go:164-180 | An artist with a chord sheet is represented by a chord sheet. |
| Middleware.GlobMatch | ChordScraper/server/middleware.go:80-89 | A wildcard entry matches the whole origin, `*` standing for any text without a line break. GlobMeansInstance proves it matches exactly the fillings of the stars. |
| Middleware.StarAbsorbs | ChordScraper/server/middleware.go:80-89 | `*` absorbs any text without a line break. |
| Middleware.InstanceMatches | ChordScraper/server/middleware.go:80-89 | Any filling of the stars matches. |
| Middleware.MatchInstance | ChordScraper/server/middleware.go:80-89 | Every match is a filling of the stars. |
| Middleware.GlobMeansInstance | ChordScraper/server/middleware.go:80-89 | A wildcard matches exactly the fillings of its stars with line-free text. |
| Middleware.NoStarExact | ChordScraper/server/middleware.go:80-89 | Without a star only the pattern matches, and `.` is literal. |
| Middleware.AllowedFrom | ChordScraper/server/middleware.go:78-94 | The loop allows the origin exactly when some entry admits it. |
| Middleware.AllowOrigin | ChordScraper/server/middleware.go:71-98 | An empty origin is allowed. Any other is allowed exactly when some entry admits it. |
| Middleware.ExactOrigins | ChordScraper/server/middleware.go:90-93 | Without wildcards, only a listed origin is allowed. |
| Middleware.WildcardOrigin | ChordScraper/server/middleware.go:80-89 | A safe wildcard admits exactly the fillings of its stars. |
| Middleware.Before | ChordScraper/server/middleware.go:191-196 | This is the text before the first comma. |
| Middleware.FirstPiece | ChordScraper/server/middleware.go:191-196 | The first split piece is the text before the comma. |
| Middleware.ClientIP | ChordScraper/server/middleware.go:189-211 | The address is the first X-Forwarded-For hop, trimmed. Otherwise it is X-Real-IP, and otherwise a prefix of the remote address. |
| Middleware.ForwardedFirstHop | ChordScraper/server/middleware.go:191-196 | A forwarded address has no comma. |
| Middleware.RemotePortDropped | ChordScraper/server/middleware.go:204-210 | The remote address is cut at its last colon. |
| Config.TrimEach | ChordScraper/config/config.go:105-109 | Every piece is trimmed. |
| Config.NonEmptyMembers | ChordScraper/config/config.go:108-113 | Exactly the non-empty pieces are kept. |
| Config.NonEmptyKeepsAll | ChordScraper/config/config.go:108-113 | A list without empty pieces is kept whole. |
| Config.NonEmptyAppend | ChordScraper/config/config.go:108-113 | Dropping empty pieces works piece by piece, so the kept pieces keep their order and their repeats. |
| Config.ParseAllowedOrigins | ChordScraper/config/config.go:104-116 | There are never more origins than comma-separated pieces. OriginsAppend and OriginsOfPiece pin the result: the non-empty trimmed pieces, in their order, repeats included. |
| Config.OriginsFromPieces | ChordScraper/config/config.go:104-116 | An origin is in the result exactly when it is a non-empty trimmed comma piece. The order is stated by OriginsAppend. |
| Config.OriginsAppend | ChordScraper/config/config.go:104-116 | The origins of `a,b` are the origins of `a` followed by those of `b`, so order and repeats are kept. |
| Config.OriginsOfPiece | ChordScraper/config/config.go:104-116 | A piece without a comma gives its trimmed text, or nothing when it is blank. |
| Config.BlankEntryDropped | ChordScraper/config/config.go:104-116 | A blank entry between two origins is dropped and the two keep their order, so "b, ,a" gives "b" then "a". |
| Config.OriginsClean | ChordScraper/config/config.go:104-116 | An origin has no comma and no surrounding white space. |
| Config.OriginsRoundTrip | ChordScraper/config/config.go:104-116 | A comma-joined list of clean origins parses back to the list. |
| Config.DefaultOriginsParsed | ChordScraper/config/config.go:13-18 | The default string gives the three built-in origins. |
| Config.GetEnvInt | ChordScraper/config/config.go:119-126 | A valid integer is used. Anything else falls back to the default. |
| Config.EnvIntRoundTrip | ChordScraper/config/config.go:119-126 | A rendered 64-bit integer reads back. Text whose first character is neither a digit nor a sign gives the default. |
| Config.FirstSet | ChordScraper/config/config.go:45-67 | The result is the first non-empty candidate. |
| Config.Load | ChordScraper/config/config.go:28-79 | The port comes from PORT. The rate limits are the constants. |
| Config.LoadPrecedence | ChordScraper/config/config.go:45-67 | Each setting comes from the options, else the environment, else the default. The webhook is never empty. |
| Config.LoadDefaults | ChordScraper/config/config.go:28-79 | With nothing set, the defaults are used. |

## Left out

- Network access, login, session handling, HTML parsing and logging in both add-ons are left out. Fetched pages, parsed trees and the environment are parameters instead.
- `datetime.now()` and the `last_updated` field of a reading are left out.
- Calls to the Home Assistant registry and state API are left out, except for the names computed for them.
- The MidCity page abstraction reduces it to strings, option values, text and scripts, so the model does not look at the BeautifulSoup tree itself.
- `get_meter_data_old` and the sensor-update loop are not part of this model, because they are not core logic.
- The rate limiter's token buckets and the CORS library options in `server/middleware.go` are left out, because they are timing and library configuration.
- JSON decoding of the search store is a parameter, because it is a library call.
- Floating-point rendering and rounding of doubles are modelled with exact reals.
- The Ultimate Guitar API client, the HTTP handlers' request plumbing, the frontend and `types.go` are not part of this model.
- Middleware.AllowOrigin: a wildcard entry that holds regular-expression metacharacters other than `.` and `*` gets its verdict from the `regex` parameter. The model does not compile it.
- ChordAnalysis.SortByCount: the order among equal counts is the model's stable choice. Go's `sort.Slice` leaves it unspecified.
- ChordAnalysis.DetectKey: the confidence is a real number. Rounding through a double is not modelled.
- MidCity.CardType: the contract states only that the type is lower-case. The precedence is stated by UnitDecidesType, AttributeDecidesType, ElementDecidesType and KeywordsDecideType.
- MidCity.Convert: `float()` is the exact decimal value, without the nearest double.
- Config.Load: the options file is one value that is present or absent. Partial JSON reads are not modelled.
- MidCity.IdNumber: lower-cases only the ASCII capitals. Python's `str.lower()` maps every capital, so a number "ÄB" gives the id part "äb" in Python and "Äb" here.
- MidCity.Title: words start at ASCII letters and only ASCII letters change case. Python's `str.title()` treats every letter alike, so "élec" becomes "Élec" in Python and "éLec" here.
- MidCity.CardType: the type attribute and the card text are lower-cased on ASCII letters only, like MidCity.IdNumber; the same holds for MidCity.KeywordType.
- MeterPatterns: `\d` is read as the ASCII digits and `\b` at ASCII word characters. Python's `str` patterns also take other Unicode digits such as '٣' and other Unicode letters as word characters.
