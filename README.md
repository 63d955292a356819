# A verified model of four DataWave components

This project models four small pieces of the DataWave query and ingest stack in Dafny and proves
what they promise:

- **AncestorIndexStream** (`AncestorIndex.dfy`) decorates an index stream. On `peek` and `next` it
  rewrites the delegate's (shard, IndexInfo) tuple. Matches are grouped by query node, and a match is
  dropped when its uid contains the uid of a match already kept for the same node: a descendant
  document repeats its ancestor's uid as a prefix. The kept matches are re-collected in TreeSet order.
  Every other call is forwarded unchanged.
- **RawDateNormalizer** (`RawDate.dfy`) normalises a date field. It first tries the date library with
  ten patterns. If that fails, or yields a date outside 1970-01-01 .. 2100-12-31, it reads the text as
  milliseconds since the epoch with a hand-written digit loop. It also expands a date into every
  pattern's rendering.
- **CachedResultsParameters** (`CachedResults.dfy`) reads nine known request parameters into its
  fields, in a fixed order. It rejects a parameter with other than one value and a page size that does
  not parse. It then requires the query id, the view and the fields to be set.
- **MaximumAgeOffFilter** (`AgeOff.dfy`) keeps a key/value pair exactly when the key's timestamp is
  after the age-off cutoff. Its init checks that options are given and the TTL is not negative.

`Wrappers.dfy` holds the Option, Result and Outcome datatypes. `JavaTypes.dfy` holds Java's `long`
and `int` ranges and the two's-complement wrap-around of `long` arithmetic.

How the code becomes Dafny:

- The imperative operations stay methods with loops, and each is proved equal to a specification
  function:
  - `removeOverlappingRanges` with its HashMap of per-node TreeSets;
  - the digit loop of `parseToDate`;
  - `formatAll`;
  - `validate` with the setters and `clear`, on a class with the source's fields.
- The properties are lemmas about those functions.
- The parts that are a single expression are functions: `sanityCheck`, `accept`, `init`,
  `normalizeRegex` and `denormalize`.
- Everything outside these four files is a parameter:
  - the ordering of index matches;
  - the date library's parse and format;
  - `Integer.parseInt` and `Long.parseLong`;
  - the clock.

## Model

| member | source | states |
|---|---|---|
| AncestorIndex.IndexOfFrom | warehouse/query-core/src/main/java/nsa/datawave/query/index/lookup/AncestorIndexStream.java:85 | `indexOf(t, from)` is -1 exactly when `t` occurs nowhere from `from` on, else the first occurrence at or after `from` |
| AncestorIndex.IndexOf | warehouse/query-core/src/main/java/nsa/datawave/query/index/lookup/AncestorIndexStream.java:85 | `indexOf(t) > -1` holds exactly when `t` is a substring, and then it is the first occurrence |
| AncestorIndex.TreeSetAdd | warehouse/query-core/src/main/java/nsa/datawave/query/index/lookup/AncestorIndexStream.java:90-92 | adding to a TreeSet keeps it strictly ascending and its contents become the old contents plus the new match |
| AncestorIndex.SortedUnique | warehouse/query-core/src/main/java/nsa/datawave/query/index/lookup/AncestorIndexStream.java:96-99 | a TreeSet's iteration order is determined by its contents: two ascending sequences with the same elements are equal |
| AncestorIndex.KeptOnlyRemoves | warehouse/query-core/src/main/java/nsa/datawave/query/index/lookup/AncestorIndexStream.java:72-93 | every kept match is an input match |
| AncestorIndex.KeptIsIndependent | warehouse/query-core/src/main/java/nsa/datawave/query/index/lookup/AncestorIndexStream.java:81-92 | within a node, no kept match's uid contains the uid of a match kept before it |
| AncestorIndex.KeptUidsDistinctPerNode | warehouse/query-core/src/main/java/nsa/datawave/query/index/lookup/AncestorIndexStream.java:81-92 | within a node, no uid is kept twice, because containment includes equality |
| AncestorIndex.KeptPerNode | warehouse/query-core/src/main/java/nsa/datawave/query/index/lookup/AncestorIndexStream.java:71-88 | only matches of the same node suppress each other: de-duplicating everything and then taking one node's matches equals de-duplicating that node's matches alone |
| AncestorIndex.FirstOfNodeKept | warehouse/query-core/src/main/java/nsa/datawave/query/index/lookup/AncestorIndexStream.java:76-92 | the first match walked for a node is always kept |
| AncestorIndex.KeptIdempotent | warehouse/query-core/src/main/java/nsa/datawave/query/index/lookup/AncestorIndexStream.java:81-99 | walking the kept matches again keeps all of them |
| AncestorIndex.DescendantRemovedExample | warehouse/query-core/src/main/java/nsa/datawave/query/index/lookup/AncestorIndexStream.java:60-67 | in one node, "a.1.2" is removed after "a.1" while "b.5" stays |
| AncestorIndex.MergeGroups | warehouse/query-core/src/main/java/nsa/datawave/query/index/lookup/AncestorIndexStream.java:95-99 | merging the node groups yields an ascending sequence holding exactly the union of the groups |
| AncestorIndex.RemoveOverlappingRanges | warehouse/query-core/src/main/java/nsa/datawave/query/index/lookup/AncestorIndexStream.java:67-104 | the result keeps the shard and myNode and holds, in ascending order, exactly the matches the node-grouped walk keeps |
| AncestorIndex.DeduplicatedUnique | warehouse/query-core/src/main/java/nsa/datawave/query/index/lookup/AncestorIndexStream.java:67-104 | the rewritten tuple is determined by the input tuple |
| AncestorIndex.DeduplicatedOnlyRemoves | warehouse/query-core/src/main/java/nsa/datawave/query/index/lookup/AncestorIndexStream.java:72-100 | every match of the rewritten tuple is a match of the input tuple |
| AncestorIndex.DeduplicatedOfSorted | warehouse/query-core/src/main/java/nsa/datawave/query/index/lookup/AncestorIndexStream.java:96-100 | for an input already in TreeSet order, the rewritten matches are exactly the kept matches in walk order |
| AncestorIndex.DeduplicatedIdempotent | warehouse/query-core/src/main/java/nsa/datawave/query/index/lookup/AncestorIndexStream.java:81-99 | rewriting a rewritten tuple again changes nothing, for an input in TreeSet order |
| AncestorIndex.AncestorIndexStream.constructor | warehouse/query-core/src/main/java/nsa/datawave/query/index/lookup/AncestorIndexStream.java:20-23 | the decorator holds the delegate it is given |
| AncestorIndex.AncestorIndexStream.Context | warehouse/query-core/src/main/java/nsa/datawave/query/index/lookup/AncestorIndexStream.java:26-28 | `context` is the delegate's context |
| AncestorIndex.AncestorIndexStream.GetContextDebug | warehouse/query-core/src/main/java/nsa/datawave/query/index/lookup/AncestorIndexStream.java:31-33 | `getContextDebug` is the delegate's text |
| AncestorIndex.AncestorIndexStream.CurrentNode | warehouse/query-core/src/main/java/nsa/datawave/query/index/lookup/AncestorIndexStream.java:36-38 | `currentNode` is the delegate's node |
| AncestorIndex.AncestorIndexStream.Peek | warehouse/query-core/src/main/java/nsa/datawave/query/index/lookup/AncestorIndexStream.java:41-43 | `peek` propagates the delegate's failure, else returns the de-duplicated form of the delegate's tuple |
| AncestorIndex.AncestorIndexStream.HasNext | warehouse/query-core/src/main/java/nsa/datawave/query/index/lookup/AncestorIndexStream.java:46-48 | `hasNext` is the delegate's answer |
| AncestorIndex.AncestorIndexStream.Next | warehouse/query-core/src/main/java/nsa/datawave/query/index/lookup/AncestorIndexStream.java:51-53 | `next` returns the de-duplicated form of the tuple the delegate's `next` returns, and the delegate advances by one |
| AncestorIndex.AncestorIndexStream.Remove | warehouse/query-core/src/main/java/nsa/datawave/query/index/lookup/AncestorIndexStream.java:56-58 | `remove` has the delegate's outcome |
| JavaTypes.WrapLong | web-service/Client/src/main/java/nsa/datawave/data/normalizer/RawDateNormalizer.java:71-72 | `long` arithmetic yields the value congruent to the exact one modulo 2^64 in the signed range, and the exact value when it fits |
| RawDate.SanityCheck | web-service/Client/src/main/java/nsa/datawave/data/normalizer/RawDateNormalizer.java:89-92 | `sanityCheck` holds exactly from 1970-01-01T00:00Z up to, not including, 2100-12-31T00:00Z, by a calendar computed independently |
| RawDate.ParseToDate | web-service/Client/src/main/java/nsa/datawave/data/normalizer/RawDateNormalizer.java:50-87 | the method's result is the library date when that is sane, else the digit loop's 64-bit value when every character is a digit and the value is sane, else the IllegalArgumentException |
| RawDate.ParseToDateSane | web-service/Client/src/main/java/nsa/datawave/data/normalizer/RawDateNormalizer.java:50-87 | a returned date always passes `sanityCheck`; a failure carries the message naming the value |
| RawDate.LibraryResultFirst | web-service/Client/src/main/java/nsa/datawave/data/normalizer/RawDateNormalizer.java:52-63 | a sane library result is returned without the fallback; any other library outcome leaves the result to the fallback alone |
| RawDate.NonDigitRejected | web-service/Client/src/main/java/nsa/datawave/data/normalizer/RawDateNormalizer.java:68-77 | when the library parse fails, any non-digit character makes the value fail |
| RawDate.EmptyIsEpoch | web-service/Client/src/main/java/nsa/datawave/data/normalizer/RawDateNormalizer.java:64-80 | when the library parse fails, the empty string is read as the epoch |
| RawDate.LongAccumulateWraps | web-service/Client/src/main/java/nsa/datawave/data/normalizer/RawDateNormalizer.java:67-77 | the loop's `dateLong` is the exact decimal value of the digits reduced modulo 2^64 |
| RawDate.WrapStep | web-service/Client/src/main/java/nsa/datawave/data/normalizer/RawDateNormalizer.java:71-72 | one `*= 10`, `+= digit` step keeps the accumulator congruent to the exact value |
| RawDate.LongAccumulateExact | web-service/Client/src/main/java/nsa/datawave/data/normalizer/RawDateNormalizer.java:67-77 | when the decimal value fits a `long`, the loop computes it exactly |
| RawDate.DigitsReadExactly | web-service/Client/src/main/java/nsa/datawave/data/normalizer/RawDateNormalizer.java:62-80 | for digit strings within `long` range, the fallback accepts exactly the sane values and returns the value itself |
| RawDate.WrappedDigitsAccepted | web-service/Client/src/main/java/nsa/datawave/data/normalizer/RawDateNormalizer.java:66-80 | the digits of 2^64 are accepted as the epoch: the wrap-around in the finding below |
| RawDate.ParseToDateChecked | web-service/Client/src/main/java/nsa/datawave/data/normalizer/RawDateNormalizer.java:50-87 | the corrected method's result is the library date when sane, else the exact decimal value when all digits and sane, else the IllegalArgumentException |
| RawDate.CheckedDigitsReadExactly | web-service/Client/src/main/java/nsa/datawave/data/normalizer/RawDateNormalizer.java:62-80 | with the library parse failing, the corrected parse succeeds exactly on digit strings whose exact value is a sane date, and returns that value |
| RawDate.CheckedAgreesWithoutOverflow | web-service/Client/src/main/java/nsa/datawave/data/normalizer/RawDateNormalizer.java:62-80 | the corrected and as-written parses agree everywhere except on digit strings beyond `Long.MAX_VALUE` |
| RawDate.CheckedRejectsWrappedDigits | web-service/Client/src/main/java/nsa/datawave/data/normalizer/RawDateNormalizer.java:66-80 | the corrected parse rejects the digits of 2^64 |
| RawDate.FormattedMembers | web-service/Client/src/main/java/nsa/datawave/data/normalizer/RawDateNormalizer.java:94-103 | a string is in formatAll's list exactly when it is non-empty and some pattern formats the date to it |
| RawDate.FormattedAppend | web-service/Client/src/main/java/nsa/datawave/data/normalizer/RawDateNormalizer.java:94-103 | formatAll keeps pattern order: the list for two pattern lists is the concatenation of their lists |
| RawDate.FormatAll | web-service/Client/src/main/java/nsa/datawave/data/normalizer/RawDateNormalizer.java:94-103 | the loop builds the non-null, non-empty formattings in the order of the ten patterns |
| RawDate.Expand | web-service/Client/src/main/java/nsa/datawave/data/normalizer/RawDateNormalizer.java:127-134 | `expand` propagates the error of the as-written parse, else returns every formatting of the parsed date; the empty-list branch is unreachable |
| RawDate.ExpandChecked | web-service/Client/src/main/java/nsa/datawave/data/normalizer/RawDateNormalizer.java:127-134 | `expand` over the corrected parse: the same, with digit strings beyond `Long.MAX_VALUE` rejected |
| RawDate.Normalize | web-service/Client/src/main/java/nsa/datawave/data/normalizer/RawDateNormalizer.java:45-48 | `normalize` (and `normalizeDelegateType`) propagates the error of the as-written parse, else renders the parsed date in ISO 8601 |
| RawDate.NormalizeChecked | web-service/Client/src/main/java/nsa/datawave/data/normalizer/RawDateNormalizer.java:45-48 | `normalize` over the corrected parse: the same, with digit strings beyond `Long.MAX_VALUE` rejected |
| RawDate.NormalizeRegex | web-service/Client/src/main/java/nsa/datawave/data/normalizer/RawDateNormalizer.java:112-114 | `normalizeRegex` is the identity |
| RawDate.Denormalize | web-service/Client/src/main/java/nsa/datawave/data/normalizer/RawDateNormalizer.java:123-125 | `denormalize` is the identity |
| CachedResults.Assign | web-service/CachedResults/src/main/java/nsa/datawave/webservice/results/cached/CachedResultsParameters.java:47-62 | assigning the field of one parameter sets that field and no other |
| CachedResults.NamesDistinct | web-service/CachedResults/src/main/java/nsa/datawave/webservice/results/cached/CachedResultsParameters.java:15-22 | the nine parameter names are distinct |
| CachedResults.AllKnown | web-service/CachedResults/src/main/java/nsa/datawave/webservice/results/cached/CachedResultsParameters.java:24-25 | every parameter is in KNOWN_PARAMS |
| CachedResults.CachedResultsParameters.constructor | web-service/CachedResults/src/main/java/nsa/datawave/webservice/results/cached/CachedResultsParameters.java:27-35 | a new object has every string field null and page size 10 |
| CachedResults.CachedResultsParameters.Validate | web-service/CachedResults/src/main/java/nsa/datawave/webservice/results/cached/CachedResultsParameters.java:38-72 | the new fields and the outcome are exactly those of the walk over KNOWN_PARAMS followed by the three null checks |
| CachedResults.CachedResultsParameters.Store | web-service/CachedResults/src/main/java/nsa/datawave/webservice/results/cached/CachedResultsParameters.java:47-62 | the if-chain assigns the field of the parameter at hand and nothing else |
| CachedResults.CachedResultsParameters.Clear | web-service/CachedResults/src/main/java/nsa/datawave/webservice/results/cached/CachedResultsParameters.java:146-156 | `clear` restores the initial values |
| CachedResults.CachedResultsParameters.SetQueryId | web-service/CachedResults/src/main/java/nsa/datawave/webservice/results/cached/CachedResultsParameters.java:78-80 | the query id becomes the value given and no other field changes |
| CachedResults.CachedResultsParameters.SetAlias | web-service/CachedResults/src/main/java/nsa/datawave/webservice/results/cached/CachedResultsParameters.java:86-88 | the alias becomes the value given and no other field changes |
| CachedResults.CachedResultsParameters.SetView | web-service/CachedResults/src/main/java/nsa/datawave/webservice/results/cached/CachedResultsParameters.java:94-96 | the view becomes the value given and no other field changes |
| CachedResults.CachedResultsParameters.SetFields | web-service/CachedResults/src/main/java/nsa/datawave/webservice/results/cached/CachedResultsParameters.java:102-104 | the fields become the value given and no other field changes |
| CachedResults.CachedResultsParameters.SetConditions | web-service/CachedResults/src/main/java/nsa/datawave/webservice/results/cached/CachedResultsParameters.java:110-112 | the conditions become the value given and no other field changes |
| CachedResults.CachedResultsParameters.SetGrouping | web-service/CachedResults/src/main/java/nsa/datawave/webservice/results/cached/CachedResultsParameters.java:118-120 | the grouping becomes the value given and no other field changes |
| CachedResults.CachedResultsParameters.SetOrder | web-service/CachedResults/src/main/java/nsa/datawave/webservice/results/cached/CachedResultsParameters.java:126-128 | the order becomes the value given and no other field changes |
| CachedResults.CachedResultsParameters.SetFixedFields | web-service/CachedResults/src/main/java/nsa/datawave/webservice/results/cached/CachedResultsParameters.java:134-136 | the fixed fields become the value given and no other field changes |
| CachedResults.CachedResultsParameters.SetPagesize | web-service/CachedResults/src/main/java/nsa/datawave/webservice/results/cached/CachedResultsParameters.java:142-144 | the page size becomes the value given and no other field changes |
| CachedResults.WalkPasses | web-service/CachedResults/src/main/java/nsa/datawave/webservice/results/cached/CachedResultsParameters.java:39-68 | the loop runs to the end exactly when every parameter it reads is absent or has one value, and a page size that parses |
| CachedResults.WalkPassesAll | web-service/CachedResults/src/main/java/nsa/datawave/webservice/results/cached/CachedResultsParameters.java:39-68 | the loop over KNOWN_PARAMS runs to the end exactly when every parameter is acceptable |
| CachedResults.WalkKeeps | web-service/CachedResults/src/main/java/nsa/datawave/webservice/results/cached/CachedResultsParameters.java:41-43 | a field whose parameter is absent keeps its previous value, even when the loop throws |
| CachedResults.WalkAssigns | web-service/CachedResults/src/main/java/nsa/datawave/webservice/results/cached/CachedResultsParameters.java:47-62 | after a loop that runs to the end, a present parameter's field holds its value |
| CachedResults.WalkPageSize | web-service/CachedResults/src/main/java/nsa/datawave/webservice/results/cached/CachedResultsParameters.java:63-64 | after a loop that runs to the end, the page size is the parsed value if present, else the previous one |
| CachedResults.WalkResolves | web-service/CachedResults/src/main/java/nsa/datawave/webservice/results/cached/CachedResultsParameters.java:39-68 | after a loop that runs to the end, every string field holds its parameter's value if present, else its previous value |
| CachedResults.ValidateResult | web-service/CachedResults/src/main/java/nsa/datawave/webservice/results/cached/CachedResultsParameters.java:38-72 | validate returns exactly when every parameter is acceptable and query id, view and fields end up set; then every field holds its parameter's value or its previous value |
| CachedResults.WrongValueCountRejected | web-service/CachedResults/src/main/java/nsa/datawave/webservice/results/cached/CachedResultsParameters.java:44-46 | a known parameter with zero or several values makes validate throw |
| CachedResults.UnparsablePageSizeRejected | web-service/CachedResults/src/main/java/nsa/datawave/webservice/results/cached/CachedResultsParameters.java:63-64 | a page size that does not parse makes validate throw |
| CachedResults.NullChecksInOrder | web-service/CachedResults/src/main/java/nsa/datawave/webservice/results/cached/CachedResultsParameters.java:69-71 | with acceptable parameters, a missing query id, view or fields is reported with its own message, in that order |
| CachedResults.WalkStopsAt | web-service/CachedResults/src/main/java/nsa/datawave/webservice/results/cached/CachedResultsParameters.java:39-68 | the loop stops at the first unacceptable parameter, with the fields as the parameters before it left them |
| CachedResults.FailureKeepsEarlierAssignments | web-service/CachedResults/src/main/java/nsa/datawave/webservice/results/cached/CachedResultsParameters.java:39-68 | on a throw at a parameter, the fields of the parameters read before it stay assigned, and the error is that parameter's |
| CachedResults.WalkKnownOnly | web-service/CachedResults/src/main/java/nsa/datawave/webservice/results/cached/CachedResultsParameters.java:39-40 | the loop reads only the entries of known names |
| CachedResults.UnknownParametersIgnored | web-service/CachedResults/src/main/java/nsa/datawave/webservice/results/cached/CachedResultsParameters.java:39-40 | entries with unknown names have no effect on validate |
| CachedResults.ValidateIdempotent | web-service/CachedResults/src/main/java/nsa/datawave/webservice/results/cached/CachedResultsParameters.java:38-72 | after a validate that returned, validating the same parameters again returns and changes nothing |
| CachedResults.ClearedNeedsQueryId | web-service/CachedResults/src/main/java/nsa/datawave/webservice/results/cached/CachedResultsParameters.java:27-35 | a new or cleared object rejects acceptable parameters that lack a query id, with the query-id message |
| AgeOff.NewFilter | warehouse/core/src/main/java/nsa/datawave/iterators/filter/ageoff/MaximumAgeOffFilter.java:38-45 | a new filter has its rule applied |
| AgeOff.IsFilterRuleApplied | warehouse/core/src/main/java/nsa/datawave/iterators/filter/ageoff/MaximumAgeOffFilter.java:100-102 | `isFilterRuleApplied` reports `ruleApplied` |
| AgeOff.Accept | warehouse/core/src/main/java/nsa/datawave/iterators/filter/ageoff/MaximumAgeOffFilter.java:63-72 | `accept` holds exactly when the key's timestamp is strictly after the cutoff |
| AgeOff.CutoffIsAgedOff | warehouse/core/src/main/java/nsa/datawave/iterators/filter/ageoff/MaximumAgeOffFilter.java:67 | a timestamp equal to the cutoff is aged off |
| AgeOff.AcceptMonotone | warehouse/core/src/main/java/nsa/datawave/iterators/filter/ageoff/MaximumAgeOffFilter.java:67 | a timestamp later than an accepted one is accepted |
| AgeOff.AcceptOnlyTimestamp | warehouse/core/src/main/java/nsa/datawave/iterators/filter/ageoff/MaximumAgeOffFilter.java:63-72 | acceptance depends on the timestamp and the cutoff only, not on the value or the rest of the key |
| AgeOff.LaterCutoffAcceptsLess | warehouse/core/src/main/java/nsa/datawave/iterators/filter/ageoff/MaximumAgeOffFilter.java:67 | whatever a later cutoff accepts, an earlier cutoff accepts |
| AgeOff.InitWithScanStart | warehouse/core/src/main/java/nsa/datawave/iterators/filter/ageoff/MaximumAgeOffFilter.java:88-97 | init fails exactly on null options or a negative TTL, with the TTL message, and otherwise leaves the filter as it was |
| AgeOff.ScanStart | warehouse/core/src/main/java/nsa/datawave/iterators/filter/ageoff/MaximumAgeOffFilter.java:83-84 | the scan start is the clock reading when the option is unset, else the parsed option; an option that does not parse fails with NumberFormatException |
| AgeOff.Init | warehouse/core/src/main/java/nsa/datawave/iterators/filter/ageoff/MaximumAgeOffFilter.java:82-86 | null options fail when they are dereferenced; an unparsable scan start fails; otherwise the clock or the parsed scan start is passed on to the validating init |
| AgeOff.RuleStaysApplied | warehouse/core/src/main/java/nsa/datawave/iterators/filter/ageoff/MaximumAgeOffFilter.java:38 | the rule starts applied and stays applied through init |
| AgeOff.InitWithoutScanStart | warehouse/core/src/main/java/nsa/datawave/iterators/filter/ageoff/MaximumAgeOffFilter.java:82-97 | with no scan-start option, init succeeds exactly when the TTL is not negative, whatever the clock says |

## Left out

- The delegate index stream is not part of this model. `AncestorIndex.DelegateStream` stands in for it: a
  list of pending tuples, fixed context values and a fixed outcome for `remove`.
- JEXL query nodes are reduced to their identity (`NodeId`), because only node equality is used. The
  decorator's `parent` node is unused and is not modelled.
- `IndexMatch.compareTo` is not part of this model. It is an abstract strict total order, taken to be
  consistent with equality, as a TreeSet needs.
- The input set of matches is a sequence in the delegate's iteration order, since the walk depends on
  that order. The result is its TreeSet, a strictly ascending sequence.
- The HashMap's iteration order over the node groups is modelled as first-insertion order of the nodes;
  the merged TreeSet does not depend on it.
- IndexInfo's other contents (counts, the query node tree) are not modelled: the rewritten info holds
  the matches and `myNode`.
- `DateUtils.parseDate` is an oracle: its outcome is the parameter `library` (None when it throws
  ParseException). `SimpleDateFormat` formatting, time zones, the ThreadLocal caches and the
  `synchronized` on `formatAll` are left out; each format call is the oracle `format`, and
  `parseToString` is the oracle `iso`.
- `normalizeDelegateType` is the same code as `normalize`; `RawDate.Normalize` models both.
- The `date != null` test in `expand` cannot fail: there is no null Result. The `NumberFormatException`
  catch in `parseToDate` cannot be reached, since nothing in the loop throws. Trace logging is left out.
- The request parameters are a `map<string, seq<string>>`; null list elements are not modelled.
- `QueryParameters` is not part of this model. The page-size parameter's name is taken as
  `"pagesize"`; only its distinctness from the other eight names matters.
- The "Unknown condition." branch of `validate` cannot be reached: every known name is matched by an
  earlier branch. The model's `Param` datatype has no other value, so the branch is absent.
- `Integer.parseInt` and `Long.parseLong` are oracles (None where they throw NumberFormatException).
- The getters are not separate members: the fields are readable directly, and each setter's contract
  states the new value of every field.
- The age-off cutoff computation in `AppliedRule` and `AgeOffPeriod` is not part of this model; the
  cutoff is an input. The effects of `super.init` and the logging are left out.
- `System.currentTimeMillis()` is the parameter `now`. The scan-start option is read from
  `FilterOptions` as an optional text; the option's key constant is not part of this model.
- `toString` only renders text and is left out.

## Findings

| source | as written | input that shows it | evidently intended | confidence | as-written member | corrected member |
|---|---|---|---|---|---|---|
| web-service/Client/src/main/java/nsa/datawave/data/normalizer/RawDateNormalizer.java:66-80 | The digit fallback accumulates `dateLong *= 10; dateLong += digit` in 64-bit arithmetic with no overflow check; the `Long.parseLong` call it replaced is commented out. | With the library parse failing, "18446744073709551616" (2^64) wraps to 0 and is accepted as the epoch. | Digit strings beyond `Long.MAX_VALUE` are rejected, as `Long.parseLong` would reject them; the surviving `catch (NumberFormatException e)` shows that reading. | medium, not executed | RawDate.WrappedDigitsAccepted | RawDate.CheckedRejectsWrappedDigits |
