# LaptopBot chat handler, modelled in Dafny

LaptopBot is a small web service. It answers free-text laptop shopping
questions ("gaming laptop under ₹60000") from a fixed catalog. This project
models its one request handler, `POST /chat`, together with the known-value
lists the handler reads, which are computed from the catalog at start-up.
The handler works in these steps:

1. It normalises the message (`strip()`, then `lower()`).
2. It answers a greeting or a farewell with a canned text.
3. Otherwise it narrows a copy of the catalog step by step:
   - by the first known brand the message mentions,
   - then by the first known processor,
   - then by the first known operating system,
   - then by a price ceiling read with the pattern `under\s*₹?\s*(\d+)`.
4. It sorts the survivors by `spec_score`, best first, and keeps ten.
5. It renders them as a numbered listing under a header.

The modules follow that pipeline:

| file | module | what it holds |
|---|---|---|
| wrappers.dfy | Wrappers | `Option` |
| text.dfy | Text | `strip()`, `lower()`, substring search, `int(...)`/`str(...)` on digit runs |
| catalog.dfy | Catalog | catalog rows, the known-value lists (`dropna().unique().tolist()`), the catalog context |
| intent.dfy | Intent | normalisation and the greeting / farewell / search decision |
| filter.dfy | Filter | narrowing constraints and the `df[mask]` filter |
| extract.dfy | Extract | the first-match-wins scans, the price pattern, the query a message names |
| rank.dfy | Rank | sorting by score and the best ten |
| formatter.dfy | Formatter | the canned texts, the entry f-string, the numbered listing, the rendering loop |
| chat.dfy | Chat | the narrowing sequence and the handler itself |

The code changes state step by step in three places. These are modelled as
methods with loops or reassignment, each proved equal to a function that
specifies it:

- the `for … break` scans are `Extract.ScanFirst`;
- the repeated reassignment of `filtered_df` is `Chat.Candidates`;
- the `response +=` loop over `enumerate` is `Formatter.Render`.

The greeting test, the farewell test and the price search are pure functions.

Three details of the code's behaviour that the model keeps:

- **Farewell markers.** The code's markers include `'Thanks'`, `'Txn'` and
  `'THANK'`. They are compared with the lower-cased message, so they never
  match: "thanks" alone is treated as a search, not a farewell
  (`Intent.CapitalisedMarkersNeverMatch`, `Intent.ThanksIsASearch`).
- **Tie order.** `sort_values` is called with its default, unstable sort, so
  the order of equal scores is not fixed. The handler's contract therefore
  accepts any best-ten in score order (`Rank.IsTopTen`), not one particular
  tie order.
- **Whitespace.** `strip()` trims every character that Python's
  `str.isspace()` accepts, not only ASCII whitespace.

## Model

| member | source | states |
|---|---|---|
| Text.StripLeft | main.py:35 | defines the left half of `strip()`: drops leading whitespace; the result is no longer than the text, what it drops is whitespace, and it does not open with whitespace |
| Text.StripRight | main.py:100 | defines the right half of `strip()`: drops trailing whitespace; the result is no longer than the text, what it drops is whitespace, and it does not end with whitespace |
| Text.Strip | main.py:35 | defines `strip()` with no argument as both halves; the result neither opens nor ends with whitespace |
| Text.IsSpace | main.py:35 | defines Python's `str.isspace()`: the characters `strip()` trims and `\s` matches |
| Text.Lower | main.py:35 | defines `lower()` character by character; the result has the same length and no upper-case letter |
| Text.Contains | main.py:50-75 | defines Python's `sub in s` on strings: `sub` occurs in `s` at some position |
| Text.DigitsValue | main.py:82 | defines `int(...)` on a run of ASCII digits, read most significant digit first |
| Text.IsDigit | main.py:80 | defines `\d` as the ASCII digits `0`-`9` |
| Text.NatToDecimal | main.py:95-96 | defines `str(n)` on a non-negative integer: its decimal digits without leading zeros |
| Text.IntToDecimal | main.py:95-96 | defines `str(i)` on any integer: a minus sign before the digits of a negative number |
| Text.StripPadded | main.py:35 | `strip()` removes exactly the whitespace on both sides of a trimmed, non-empty text |
| Text.StripLeftPadded | main.py:35 | leading whitespace before a non-space character is exactly what the left strip removes |
| Text.StripRightPadded | main.py:35 | trailing whitespace after a non-space character is exactly what the right strip removes |
| Text.StripLeftSuffix | main.py:35 | the left strip keeps a suffix of the text |
| Text.StripRightPrefix | main.py:35 | the right strip keeps a prefix of the text |
| Text.StripRightKeepsPrefix | main.py:100 | the right strip keeps every character up to and including any non-space one |
| Text.StripOfNonSpaceStart | main.py:100 | a text that opens with a non-space character loses only its trailing whitespace to `strip()` |
| Text.StripTrimmed | main.py:35 | `strip()` leaves a text with no whitespace at either end unchanged |
| Text.LowerChar | main.py:35 | a lower-cased character is not an upper-case letter, and is whitespace exactly when the original is |
| Text.LowerOfLower | main.py:35 | lower-casing leaves a text without upper-case letters unchanged |
| Text.NoUpperExcludes | main.py:50 | a lower-case text never contains a pattern that has an upper-case letter |
| Text.NatToDecimalCanonical | main.py:95 | `str(n)` is a canonical digit string, and has one digit exactly when n < 10 |
| Text.DecimalRoundTrip | main.py:82 | reading back the digits of `str(n)` with `int(...)` gives n |
| Text.DigitsRoundTrip | main.py:82 | `str(int(s))` gives back any canonical digit string s |
| Catalog.BrandColumn | main.py:28 | defines the `df['brand']` column read: each row's brand cell, in row order |
| Catalog.ProcessorColumn | main.py:29 | defines the `df['processor_name']` column read: each row's processor cell, in row order |
| Catalog.OsColumn | main.py:30 | defines the `df['Operating System']` column read: each row's OS cell, in row order |
| Catalog.KnownValues | main.py:28-30 | a name is known exactly when some row has it in that column; no name is listed twice |
| Catalog.KnownValuesInFirstSeenOrder | main.py:28-30 | the known names are listed in the order in which the catalog first has them |
| Catalog.FirstSeenBeforeAsymmetric | main.py:28-30 | two names cannot each be first seen before the other |
| Catalog.Load | main.py:28-30 | the start-up context: the three lists are the known values of their columns; each name occurs in some row, every present name is listed, none twice |
| Intent.IsGreeting | main.py:38 | defines the greeting test: the normalised message is exactly "", "hi", "hello" or "hey" |
| Intent.Greetings | main.py:38 | defines the greeting list: "", "hi", "hello" and "hey", in that order |
| Intent.FarewellMarkers | main.py:50 | defines the seven farewell markers exactly as written, upper-case letters included |
| Intent.IsFarewell | main.py:50 | defines the farewell test: some one of the seven markers, as written, occurs in the normalised message |
| Intent.Classify | main.py:38-57 | defines the decision: greeting when the normalised message is "", "hi", "hello" or "hey", else farewell when the farewell test holds, else search |
| Intent.Normalize | main.py:35 | the normalised message has no upper-case letter and no whitespace at either end |
| Intent.NormalizeFixesNormal | main.py:35 | normalising an already normal message changes nothing |
| Intent.OnlyLowerCaseMarkersMatch | main.py:50 | on a text without upper-case letters, the farewell test holds exactly when one of "bye", "goodbye", "see you", "exit" occurs |
| Intent.CapitalisedMarkersNeverMatch | main.py:35-50 | for any message, only the four lower-case markers can make it a farewell |
| Intent.BlankIsGreeting | main.py:35-38 | an empty or all-whitespace message is a greeting |
| Intent.PaddedGreeting | main.py:35-38 | "  Hi  " is a greeting |
| Intent.ShoutedGreeting | main.py:35-38 | "HEY" is a greeting |
| Intent.ThanksIsASearch | main.py:38-50 | "thanks" is neither a greeting nor a farewell, so it is searched for |
| Intent.FarewellInsideSentence | main.py:50 | a marker inside a longer message is enough: "ok thanks bye" is a farewell |
| Filter.Satisfies | main.py:64-83 | defines the four masks: brand equal up to case, processor and OS containing the name up to case with a missing cell failing, price at most the ceiling |
| Filter.Where | main.py:64-83 | defines `df[mask]` for a list of masks: the rows that pass every mask, in catalog order |
| Filter.WhereMembers | main.py:64-83 | a record survives the filter exactly when it is one of the rows and passes every mask |
| Filter.WhereIsSubsequence | main.py:59-83 | filtering never invents or reorders rows |
| Filter.WhereCounts | main.py:59-83 | a passing row is kept as often as it occurs; every other row is dropped |
| Filter.WhereNothing | main.py:59 | with no constraint the candidates are the whole catalog (`df.copy()`) |
| Filter.WhereThenWhere | main.py:59-83 | narrowing the running result by one more mask equals filtering the catalog by all the masks so far |
| Filter.WhereIgnoresOrder | main.py:59-83 | only which masks are applied matters, not their order |
| Filter.SatisfiesAllConcat | main.py:59-83 | passing two lists of masks is passing each list |
| Extract.Mentions | main.py:63-75 | defines `value.lower() in user_input`: the lower-cased name occurs in the normalised message |
| Extract.FirstMention | main.py:62-77 | none is chosen exactly when no listed name occurs in the message; otherwise the choice occurs, and no name listed before it does |
| Extract.ScanFirst | main.py:62-77 | the `for … if … in user_input: … break` scan returns the first mentioned name |
| Extract.EarlierMentionWins | main.py:62-65 | of two mentioned names, the one listed later is never the choice |
| Extract.FirstSeenValueWins | main.py:28-65 | of two mentioned names in a column's known list, the one the catalog has later is never the choice |
| Extract.SpacesEnd | main.py:80 | `\s*`: the greedy end of the whitespace run |
| Extract.DigitsEnd | main.py:80 | `(\d+)`: the greedy end of the digit run |
| Extract.PriceAt | main.py:80-82 | defines the pattern tried at one position: "under", whitespace, an optional rupee sign, whitespace, and a non-empty digit run whose integer value is returned |
| Extract.PriceCeiling | main.py:80-82 | defines the ceiling of a message as the leftmost match of the pattern, if any |
| Extract.FindPrice | main.py:80 | `re.search`: none exactly when the pattern matches at no position; otherwise the match at the leftmost position that matches |
| Extract.PriceAtRecognises | main.py:80-82 | every occurrence of `under\s*₹?\s*(\d+)` gives the integer value of its digit group |
| Extract.PriceAtSound | main.py:80-82 | every ceiling read at a position comes from an occurrence of the pattern there |
| Extract.PriceExamples | main.py:80-82 | "under60000" and "under ₹ 60000" both give the ceiling 60000 |
| Extract.ExtractQuery | main.py:62-82 | defines the query of a message: the first mentioned brand, processor and OS in known-value order, and the price ceiling |
| Extract.ActiveConstraints | main.py:62-83 | defines the masks a query calls for, in the code's order: brand, processor, OS, price |
| Extract.SatisfiesQuery | main.py:62-83 | passing a query's masks is passing each mask the query names |
| Extract.QueryCandidates | main.py:62-83 | a record survives a query's masks exactly when it is a row, its brand equals the brand up to case, its processor and OS contain the names up to case (a missing cell fails), and its price is at most the ceiling |
| Extract.ActiveConstraintsMembers | main.py:62-83 | a query applies at most four masks: each one it names, and nothing else |
| Rank.IsTopTen | main.py:89 | defines a best ten: min(n, 10) records in non-increasing score, drawn from the candidates, with no left-out candidate scoring higher than a listed one |
| Rank.ConsDescending | main.py:89 | a record scoring at least as high as the head of a descending list can go in front of it |
| Rank.InsertByScore | main.py:89 | inserting into a descending list keeps it descending and adds exactly that record |
| Rank.SortByScore | main.py:89 | `sort_values(by="spec_score", ascending=False)`: a rearrangement of the candidates in non-increasing score order |
| Rank.SortedCut | main.py:89 | after cutting a sorted list, nothing past the cut scores higher than anything before it |
| Rank.SortedPrefixIsTopTen | main.py:89 | the first ten of any descending rearrangement are a best ten |
| Rank.TopTen | main.py:89 | `.head(10)`: exactly min(n, 10) candidates, in non-increasing score, drawn from the candidates, and no left-out candidate scores higher than a listed one |
| Formatter.CellText | main.py:95-97 | defines how the f-string shows a text cell: its value, or `nan` for a missing cell |
| Formatter.GreetingText | main.py:41-46 | defines the welcome reply, character for character |
| Formatter.FarewellText | main.py:53-54 | defines the farewell reply, character for character, trailing newline included |
| Formatter.NoMatchText | main.py:86 | defines the no-match reply, character for character |
| Formatter.Header | main.py:92 | defines the header line that opens a listing, character for character |
| Formatter.EntryParts | main.py:95-97 | defines the pieces of one entry's f-string: rank, model, brand, price, processor, RAM, SSD and OS, with a missing cell shown as `nan` |
| Formatter.Entry | main.py:95-97 | defines the two lines that list one record under its rank |
| Formatter.Listing | main.py:93-98 | defines the listing: the entries of the records in order, ranked from 1 |
| Formatter.RepliesOpenApart | main.py:41-92 | the greeting, farewell, no-match and listing texts open with four different emoji |
| Formatter.ConcatAppend | main.py:93-98 | concatenating two lists of texts is concatenating their concatenations |
| Formatter.ConcatSnoc | main.py:94 | appending one more text to the parts appends it to their concatenation |
| Formatter.EntriesExtend | main.py:93 | one more record adds one entry, ranked next |
| Formatter.HeaderThenListing | main.py:92-98 | the header and the entries concatenate to the header followed by the listing |
| Formatter.ListingNumbersConsecutively | main.py:93-98 | record i is listed under rank i + 1, after the entries before it; the records after it continue from rank i + 2 |
| Formatter.EntryStartsWithRank | main.py:95 | each entry opens with its rank "n. " |
| Formatter.ListingStartsWithRankOne | main.py:93-95 | a non-empty listing opens with "1. " |
| Formatter.Render | main.py:92-100 | the rendering loop returns the stripped header followed by the numbered listing of the records |
| Formatter.ListingReplyShape | main.py:92-100 | for a non-empty listing, the reply opens with the header then "1.", and `strip()` removes only trailing whitespace |
| Chat.CandidateSet | main.py:59-83 | defines the candidates of a search: the rows passing every mask the normalised message calls for, in catalog order |
| Chat.IsReplyTo | main.py:35-100 | defines the reply owed to a message: greeting text, farewell text, no-match text when no row matches, else the stripped header and listing of some best ten |
| Chat.Candidates | main.py:59-83 | the narrowing sequence equals one filter of the catalog by every constraint the message names |
| Chat.CandidateSetCharacterised | main.py:59-83 | a row is a candidate exactly when it meets each constraint the message names: brand equal up to case, processor and OS containing the names up to case (a missing cell fails), price at most the ceiling |
| Chat.BrandChoiceFollowsCatalogOrder | main.py:62-65 | when a message mentions two known brands, the brand the catalog has later is never chosen |
| Chat.BrandChoiceBetweenTwo | main.py:62-65 | when a message mentions exactly two known brands, the brand the catalog has first is chosen |
| Chat.Chat | main.py:32-100 | the reply is the greeting text exactly for greetings and the farewell text exactly for farewells; for a search it is the no-match text exactly when no row matches, and otherwise the stripped header plus a numbered listing of a best ten of the candidates |

## Left out

- HTTP plumbing is not modelled. This covers the FastAPI app, the CORS middleware, the uvicorn start-up and `request.json()` parsing. The handler takes the message string directly.
- A missing `"message"` key defaults to `""` in the code. The model does not handle it separately: an empty message gives the same greeting.
- A non-string `"message"` value is not modelled. In the code it raises an error in `strip()`.
- Reading `laptop.csv` with pandas is not modelled. The catalog is given as a sequence of fixed-shape records, and columns are fields, not looked up by string key.
- `str.contains` on processor and OS names is modelled as a literal substring test. pandas treats the name as a regular expression, so names containing regex metacharacters behave differently in the code, and a name that is not a valid regular expression makes the code raise an error.
- Chat.Chat: the order of records with equal `spec_score` is not specified. The sort is unstable, so the contract accepts any best ten in score order.
- `spec_score` is an integer in the model. Float and NaN scores, and where NaN sorts, are not modelled.
- `price`, `ram(GB)` and `ssd(GB)` are integers. They render with `str(...)`; float cells, which pandas prints as `60000.0`, are not modelled.
- `model_name` is always present in the model. A missing `brand`, `processor_name` or `Operating System` cell renders as `nan`.
- `lower()` folds only the ASCII letters A-Z. Non-ASCII case folding is not modelled.
- Extract.PriceAt: `int(...)` on a digit run longer than 4300 digits raises `ValueError` in the code, Python's default limit on converting a string to an integer, and the handler fails. The model reads a run of any length, so `Chat.Chat` replies normally to such a message.
- `\d` matches the ASCII digits only. Python also accepts other Unicode decimal digits.
- The canned texts and the header are modelled as character sequences. The emoji are single characters, and byte encodings are not modelled.
- Concurrency is not modelled. The catalog is read-only and each request is independent.
