# Verified model of the truewire client runtimes

This project models the parts of the truewire client runtimes where a mistake loses, repeats or misroutes
data, and proves what they are for. Each module follows one component and keeps its form: the functions
that compute are Dafny functions, the loops are methods proved against them, the objects that change are
classes or, where callers, readers and failures interleave, state machines whose steps are the locks and
channel operations of the source.

| modules | component | main results |
|---|---|---|
| `Sequences`, `Seek`, `SeekWalk`, `SeekUncapped` | the `seek` pagination walk | against a fixed venue that truncates every answer, a walk ends, fails exactly when a key value fills a page, and otherwise yields exactly the rows asked for, as a multiset; no request it sends is wider than a span; with no page size known, with or without a span, it is complete exactly when no such key value has a wanted row behind its page that the walk does not come to again |
| `Paging` | resumable page walks | resuming from any page gives the remaining pages; any pattern of failures, retries and resumptions sees the pages of one uninterrupted walk |
| `UnionShape`, `UnionScore`, `UnionLaws`, `UnionChoice` | the iterative union scorer | the explicit stack computes the recursive score on every finite, possibly cyclic pair of graphs, and the earliest best member is chosen; a score counts the declared fields held at every depth, and a record that declares more of what a value holds wins |
| `JsonText`, `JsonTextLaws`, `JsonRoundTrip`, `JsonSettled`, `JsonParsers`, `JsonGrammar`, `JsonPlaced`, `JsonSpelled`, `JsonAccepted` | lossless JSON text | exactly the texts of section 2 of RFC 8259 are read, each as what it means, however it is spelled; exactly which values survive writing and reading; the fast path loses no digit; a parsed document can be written and read again, unchanged exactly when no double in it is infinite or written as an integer |
| `Digits`, `Decimals` | decimal strings | digit-by-digit comparison is the order of the rational numbers spelled |
| `Times`, `TimesLaws` | epoch numerals | exactly which units make rounding on one digit and rational rounding agree; rational rounding is the nearest nanosecond for every exponent; a count comes back exactly when it is a whole number of nanoseconds |
| `JsonPointer`, `SortedKeys`, `GoCodec`, `GoCodecLaws`, `GoValues`, `GoIssues`, `GoDecoder` | the Go codec layer | a record holds each field's own member and, as extra members, exactly the undocumented ones; decoding then encoding gives the document back; every issue's pointer, followed through the document and its type together, comes to what the type refuses (section 4 of RFC 6901) |
| `ReplyLink`, `SendTurns`, `Subscriptions`, `SerialReplies`, `AsyncQueues` | correlation, pacing and queues | inductive invariants over every interleaving: replies reach whom they are for and end the requests that await them, no wake-up is missed, the promise chain grants turns one at a time in call order, and starts are paced |
| `VendoredText`, `VendoredUpdate`, `VendoredLaws` | vendored copies | stamping is undone exactly; `update` removes exactly the untouched copies no longer shipped, is a fixpoint, leaves other people's text alone and brings every shipped text |

Keys are integers, rows and documents are values, and integers are unbounded unless a module says
otherwise. A page fetch, a socket frame, a clock tick, an abort and a digest are parameters or steps.

## Findings

- `packages/core-go/seek.go:123-129`: with no page size known the walk trusts a page that repeats its key
  value to be the last, or jumps on to its span's edge. `SeekUncapped.AllUncapped` proves that it then never
  fails, and that it is complete exactly when no key value that fills the venue's page has a wanted row behind
  that page and before the edge, or anywhere behind it when there is no edge short of the caller's far bound.
  `SeekUncapped.FilledKeyHides` and `SeekUncapped.FilledKeyHidesUpToEdge` are inputs on which rows are lost.
- `packages/core-go/validation.go:101-104`: inside a field both optional and nullable the standard library
  walks lists and maps itself, so an issue's pointer can lose its index or key; `GoIssues.ListLosesPlace` is an
  input. `GoIssues.PlainIsSameExactly` and `GoIssues.PlainLeadsExactly` prove that a type's decoding and its
  issues keep their place exactly when no list or map in it, reached through pointers alone, has an element
  type that refuses any document.
- `packages/core-ts/src/json.ts:8-9` says every value but an unsafe integer is what `JSON.parse` and
  `JSON.stringify` make of it. A double that is an unsafe integer does not round-trip:
  `JsonSettled.ExponentIsLost` reads `1e20`, which is written with all its digits and read back as a
  `bigint`. `JsonSettled.ReadWriteRead` proves that a parsed document comes back exactly when every double in
  it is finite and not written as an integer literal.
- `crates/truewire-core/src/times.rs:199-213`: rounding on the first dropped digit is right exactly for units
  whose nanoseconds are a power of ten (`TimesLaws.UnitsThatAgree`). All declared units are such;
  `TimesLaws.OtherUnitsDiffer` has a numeral for any other unit.
- `packages/core-go/ws/correlate.go:88-115`: a serial request given up after sending leaves its reply to the
  next one. `SerialReplies.OwnReplyExactly` proves over every run that a reply comes as many places early as
  requests sent before were abandoned, so a request gets the reply at its own place exactly when none was;
  `SerialReplies.AbandonedShiftsReplies` is an input.

## Model

| member | source | states |
|---|---|---|
| Seek.MatchedBalances | packages/core-go/seek.go:171-184 | removing carried rows by content splits a page into what is new and what was carried, counting every copy, and leaves a carried row over only when the page lacked it |
| Seek.Seek.DedupTakesBlock | packages/core-go/seek.go:140-189 | a page made of the carried rows and others, in any order, loses exactly the carried rows and never raises "vanished" |
| Seek.DedupByContent | packages/core-go/seek.go:165-189 | matching by content, as multisets: page minus carried |
| Seek.DedupByKey | packages/core-go/seek.go:145-164 | for keys that occur once, dropping shared keys removes the carried rows and nothing else |
| Seek.AtIsTail | packages/core-go/seek.go:108-116 | the rows carried on are exactly the rows of the page at the key the bound moves to |
| Seek.Seek.Edge | packages/core-go/seek.go:71-80 | a request's far edge is never past the caller's far bound; `EdgeReaches` says how far it lies |
| Seek.Seek.EdgeReaches | packages/core-go/seek.go:75-79 | in either direction the edge lies the lesser of a span and the distance to the far bound ahead of the moving bound |
| Seek.Seek.Extreme | packages/core-go/seek.go:99-107 | the next bound is a key of the page that no other key of the page lies beyond |
| Seek.Seek.ExtremeIsLast | packages/core-go/seek.go:99-107 | whatever the wire order, it is the key of the page's last row in walk order |
| Seek.Seek.DropCarriedKeys | packages/core-go/seek.go:145-164 | the nested loops keep exactly the rows that share no key with a carried row |
| Seek.Seek.DropCarriedRows | packages/core-go/seek.go:169-185 | the in-place deletion of first equals computes the matching |
| Seek.Seek.DedupRows | packages/core-go/seek.go:140-189 | the whole dedup, both branches and the failure |
| Seek.Seek.FindExtreme | packages/core-go/seek.go:99-107 | the running extreme is the extreme |
| Seek.Seek.Next | packages/core-go/seek.go:69-130 | one step: the missing-bounds error, the request it sends, as wide as `EdgeReaches` says, and what it makes of the page |
| SeekWalk.AnswerIsSlice | packages/core-go/seek.go:81-84 | a venue's answer is a run of its rows in walk order, from the moving bound to the sent far bound or the page limit |
| SeekWalk.WantedIsBetween | packages/core-go/seek.go:21-31 | the rows a walk is for are those whose keys lie between the caller's bounds, whichever way it goes, that are not past the kept one |
| SeekWalk.ReachedAsksNarrow | packages/core-go/seek.go:71-81 | every request a walk sends, from whatever state it reached, covers at most one span |
| SeekWalk.NarrowAnswer | packages/core-go/seek.go:81-84 | so every row such a request can be answered with has its key within a span of the bound |
| SeekWalk.PageDedup | packages/core-go/seek.go:140-189 | on course, a page in any wire order loses exactly the rows already yielded |
| SeekWalk.MoveReaches | packages/core-go/seek.go:117-129 | moving the bound to a key and carrying the rows at it keeps the walk on course |
| SeekWalk.PastEnds | crates/truewire-core/src/paging.rs:767-776 | the page holding the first row past the kept bound is the last, even a full one, and yields all that is left |
| SeekWalk.StepKeepsCourse | packages/core-go/seek.go:69-130 | every step yields exactly the wanted rows of its page, makes progress in a measure of rows and span left, and fails only on a crowded key value |
| SeekWalk.CrowdIsCrowded | packages/core-go/seek.go:117-121 | a full page at one key exists exactly when some key value holds a page limit's worth of wanted rows |
| SeekWalk.Resume | packages/core-go/seek.go:64-130 | a walk resumed from any state it reached ends, and yields exactly the rows left, or fails exactly when a key value is crowded |
| SeekWalk.All | packages/core-go/seek.go:64-130 | the whole walk, ascending or descending, with or without span, cap, uniqueness and kept bound: it ends, fails exactly when some key value fills a page, and else yields the wanted rows as a multiset |
| SeekUncapped.UncappedStep | packages/core-go/seek.go:123-129 | without a cap a step never fails: it goes on past some rows, jumps from a filled key value to the span's edge, or ends with nothing left or stuck with no edge to jump to |
| SeekUncapped.JumpHides | packages/core-go/seek.go:126-129 | a jump that passes over wanted rows means that some are hidden, and one that passes over none leaves nothing hidden up to the edge |
| SeekUncapped.StoppedHides | packages/core-go/seek.go:123-129 | at its end the walk has left something exactly when something is hidden |
| SeekUncapped.AllUncapped | packages/core-go/seek.go:69-130 | the whole walk without a cap, with or without a span: it ends without failure, yields only wanted rows, and all of them exactly when no filled key value has a wanted row behind its page that is before the edge, or anywhere behind it with no edge to jump to |
| SeekUncapped.FilledKeyHides | packages/core-go/seek.go:123-129 | keys 1, 2 and 3 on pages of one row: rows are lost |
| SeekUncapped.FilledKeyHidesUpToEdge | packages/core-go/seek.go:123-129 | with a span, the row between a filled key value and the edge is lost |
| SeekUncapped.FilledKeyHidesNothingPastEdge | packages/core-go/seek.go:129-129 | a row behind a filled key value and past the edge is not |
| Paging.ResumeIsRest | packages/core-go/paging.go:106-109 | resuming from any page's following state yields exactly the remaining pages, and ends as the walk does, with the same failure |
| Paging.WalkSplits | packages/core-go/paging.go:57-74 | a walk is the pages up to any state on it, then the pages from that state |
| Paging.PageIsItsState | packages/core-go/paging.go:25-33 | a page fetched again from its own state is the same page, and its following state is the next page's state |
| Paging.RetriesStayOnTheWalk | packages/core-go/paging.go:11-23 | whatever attempts fail, retries and resumptions collect a prefix of one uninterrupted walk |
| Paging.DoneIsWhole | packages/core-go/paging.go:11-23 | a caller left with no next state has every page of the walk |
| Paging.ViaIsPlainWalk | packages/core-go/paging.go:111-117 | through a wrapper that answers with the outcome of one of its fetches, which may fail, a walk has the plain walk's pages up to a failure answered, and all of them when there is none |
| Paging.PaginatedResponse.Pages | packages/core-go/paging.go:59-74 | the pages a consumer takes and the failure that stopped it |
| Paging.PaginatedResponse.All | packages/core-go/paging.go:94-104 | every row of every page up to the first failure, and that failure |
| Paging.PaginatedResponse.Resume | packages/core-go/paging.go:106-109 | the same step from another state |
| UnionShape.BestIsBest | packages/core-python/src/truewire_core/_serialization.py:83-84 | a union's score is one of its members' and none of them is better |
| UnionShape.TotalAddsUp | packages/core-python/src/truewire_core/_serialization.py:85-89 | a total needs every child, adds their fields and takes the least exactness |
| UnionShape.PresentIsDeclared | packages/core-python/src/truewire_core/_serialization.py:143-153 | a record goes on to each declared field it holds, in order, and is refused exactly for a missing required one |
| UnionShape.NetOf | packages/core-python/src/truewire_core/_serialization.py:104-179 | every pair of a finite schema graph and a finite value graph has a shape whose children are pairs again |
| UnionScore.VisitsMean | packages/core-python/src/truewire_core/_serialization.py:101-101 | the pushed visits leave their scores in order above those already there |
| UnionScore.VisitExpands | packages/core-python/src/truewire_core/_serialization.py:93-101 | opening a node keeps what the stack will come to and lessens the work left, cycles included |
| UnionScore.Unstack | packages/core-python/src/truewire_core/_serialization.py:76-97 | so does closing a node or meeting an active pair |
| UnionScore.ScoreOf | packages/core-python/src/truewire_core/_serialization.py:66-102 | the explicit stack ends and returns the recursive score with its set of active pairs, which `UnionLaws` and `UnionChoice` state for each kind of schema |
| UnionScore.Choose | packages/core-python/src/truewire_core/_serialization.py:181-187 | the earliest member of maximal score, none exactly when no member scores; `UnionChoice` says which member that is |
| UnionLaws.NativeScore | packages/core-python/src/truewire_core/_serialization.py:120-131 | a value scores against a native type by its own class, a subclass or an int where a float is declared, in that order; a bool is neither int nor float |
| UnionLaws.LeafScore | packages/core-python/src/truewire_core/_serialization.py:114-133 | the other leaves match wholly or not at all, and a value of any type least exactly |
| UnionLaws.WrapperScore | packages/core-python/src/truewire_core/_serialization.py:108-113 | a reference, a wrapper or a nullable scores a value as what it wraps, and a nullable takes None exactly |
| UnionLaws.UnionIsBest | packages/core-python/src/truewire_core/_serialization.py:134-136 | a union scores as one of its members, none of which is better, and not at all exactly when none does |
| UnionLaws.RecordScore | packages/core-python/src/truewire_core/_serialization.py:143-153 | a record matches exactly a dict that holds its required fields and matches each held one, and each of those counts |
| UnionLaws.CollectionScore | packages/core-python/src/truewire_core/_serialization.py:154-157 | a list, set or frozenset of its class matches when every item does |
| UnionLaws.DictScore | packages/core-python/src/truewire_core/_serialization.py:158-163 | a dict matches when every key and every value does |
| UnionLaws.TupleScore | packages/core-python/src/truewire_core/_serialization.py:164-176 | a tuple of a fitting length matches when each item matches the schema of its position, the variadic one repeated |
| UnionLaws.ScoreIsCapped | packages/core-python/src/truewire_core/_serialization.py:85-89 | no score is more exact than 2 |
| UnionChoice.FieldsAreFound | packages/core-python/src/truewire_core/_serialization.py:143-153 | the fields a score counts are the declared fields the value holds, at every depth |
| UnionChoice.FoundAreReal | packages/core-python/src/truewire_core/_serialization.py:143-153 | each of them a declared field of a record schema met with a dict that holds it |
| UnionChoice.PathDoesNotMatter | packages/core-python/src/truewire_core/_serialization.py:92-96 | a score depends on the active pairs only where they can be met again |
| UnionChoice.RicherRecordIsBetter | packages/core-python/src/truewire_core/_serialization.py:181-187 | of two records that a value matches, the one that declares more of its keys scores better, unless their fields lead back to them |
| UnionChoice.PoorerIsNotChosen | packages/core-python/src/truewire_core/_serialization.py:181-187 | so the poorer one is never chosen where the richer one matches, whatever its place |
| UnionChoice.StackedNeverBack | packages/core-python/src/truewire_core/_serialization.py:92-96 | the fields of a value that holds no cycle never lead back to it |
| UnionChoice.PoorerIsPassedOver | packages/core-python/src/truewire_core/_serialization.py:181-187 | so of every such value the poorer record is never chosen where a richer one matches |
| UnionChoice.NearerNativeIsBetter | packages/core-python/src/truewire_core/_serialization.py:120-131 | of two native types the better is exactly the one whose class is nearer the value's |
| JsonTextLaws.NumberEndAt | packages/core-ts/src/json.ts:51-51 | a literal is read whole wherever it stands before a delimiter |
| JsonTextLaws.IntegerTextReads | packages/core-ts/src/json.ts:29-29 | an integer's digits are a literal the reader takes whole, and say that integer |
| JsonTextLaws.InsideReads | packages/core-ts/src/json.ts:120-126 | a string's written form reads back as the string, escapes, controls and unpaired surrogates included |
| JsonTextLaws.PutLast | packages/core-ts/src/json.ts:98-98 | a key listed after all others is defined last |
| JsonTextLaws.ItemsRead | packages/core-ts/src/json.ts:106-118 | a written list is read back item by item to its bracket |
| JsonTextLaws.MembersRead | packages/core-ts/src/json.ts:86-104 | written members are read back in order, with their keys, to the brace |
| JsonTextLaws.ValueReads | packages/core-ts/src/json.ts:73-84 | any value written anywhere in a text is read back there, each number as its literal reads |
| JsonRoundTrip.SameText | packages/core-ts/src/json.ts:39-45 | values with no JSON form are written as null in a list and left out of an object |
| JsonRoundTrip.WrittenReads | packages/core-ts/src/json.ts:21-49 | a value has a text exactly when it has a JSON form, and the text reads as the value pruned, numbers as their texts read |
| JsonRoundTrip.RoundTripExactly | packages/core-ts/src/json.ts:13-49 | for every value: it comes back the same exactly when nothing in it lacks a JSON form, every big integer is unsafe and every double is finite and not written as an integer literal, given that a double's decimal form reads as it |
| JsonRoundTrip.RoundTrip | packages/core-ts/src/json.ts:1-22 | printing then parsing is the identity on null, booleans, strings, integers of any size, lists and objects |
| JsonRoundTrip.ShortLiterals | packages/core-ts/src/json.ts:12-13 | a text with no run of sixteen digits holds no unsafe integer literal |
| JsonRoundTrip.SameValue | packages/core-ts/src/json.ts:73-84 | two readings that agree on a text's numbers agree on the text |
| JsonRoundTrip.FastPathIsLossless | packages/core-ts/src/json.ts:16-19 | the fast path gives what the lossless parser gives, on every text |
| JsonSettled.PutKeepsOrder | packages/core-ts/src/json.ts:98-98 | defining a property keeps keys distinct and in the language's listing order |
| JsonSettled.LiteralIsNumber | packages/core-ts/src/json.ts:128-136 | what is read as a number is a number on its own |
| JsonSettled.ReadWriteRead | packages/core-ts/src/json.ts:13-22 | every parsed document can be written and read again, as the same value exactly when every double in it is finite and not written as an integer literal |
| JsonSettled.ExponentIsLost | packages/core-ts/src/json.ts:133-135 | `1e20` is read as a double and written as digits that read as a big integer |
| JsonParsers.Parser.Document | packages/core-ts/src/json.ts:58-63 | the parser's value and final index, or the index its error names, are the grammar's |
| JsonParsers.Parser.Element | packages/core-ts/src/json.ts:73-84 | so for one value, each branch |
| JsonParsers.Parser.Members | packages/core-ts/src/json.ts:91-103 | so for an object's loop, a repeated key overwriting in place |
| JsonParsers.Parser.Items | packages/core-ts/src/json.ts:111-117 | so for a list's loop |
| JsonParsers.Parser.SkipSpace | packages/core-ts/src/json.ts:69-71 | the index moves over exactly the white space |
| JsonParsers.ParseText | packages/core-ts/src/json.ts:16-19 | parsing by either path returns the lossless value or refuses |
| JsonParsers.WriteValue | packages/core-ts/src/json.ts:28-49 | the recursive writer with its loops computes the text |
| JsonGrammar.PutAt | packages/core-ts/src/json.ts:98-98 | defining a property changes its own value and no other |
| JsonGrammar.LastCounts | packages/core-ts/src/json.ts:98-98 | of a key written more than once the last value counts |
| JsonPlaced.LayoutStands | packages/core-ts/src/json.ts:73-84 | a value's text, with any white space and spelling, stands where its parts stand one behind the other |
| JsonSpelled.NumeralIsNumber | packages/core-ts/src/json.ts:51-51 | every numeral of the grammar is read whole |
| JsonSpelled.GlyphsRead | packages/core-ts/src/json.ts:120-126 | a string is read as its units, each plain, escaped by a letter (the slash too) or in four hex digits of either case |
| JsonSpelled.LayoutReads | packages/core-ts/src/json.ts:73-118 | a value is read as what it means, however it is spelled |
| JsonAccepted.NumberIsNumeral | packages/core-ts/src/json.ts:51-51 | what is read as a number is a numeral of the grammar |
| JsonAccepted.StringIsGlyphs | packages/core-ts/src/json.ts:52-52 | what is read as a string is spelled by the grammar |
| JsonAccepted.ValueIsLaid | packages/core-ts/src/json.ts:73-84 | what is read as a value is a value of the grammar, with its meaning |
| JsonAccepted.AcceptedExactly | packages/core-ts/src/json.ts:58-63 | exactly the texts of the grammar are accepted, whole, each with the value it means |
| JsonAccepted.RefusedExactly | packages/core-ts/src/json.ts:58-63 | every other text is refused, one with anything behind its value included |
| JsonAccepted.WhiteSpaceIsNothing | packages/core-ts/src/json.ts:69-71 | texts that differ only in white space between tokens are read as the same value |
| Digits.ItoaValue | packages/core-go/validation.go:368-368 | a count written in digits is worth the count |
| Decimals.TextUnambiguous | packages/core-go/decimal.go:17-17 | a decimal string has one reading |
| Decimals.OrderAtScale | packages/core-go/decimal.go:95-118 | the order of two numbers does not depend on the power of ten that makes them whole |
| Decimals.OrderIsTotalPreorder | packages/core-go/decimal.go:95-118 | the order is total, transitive and antisymmetric up to equal value |
| Decimals.ShiftWorth | packages/core-go/decimal.go:71-86 | moving digits across the point for the exponent keeps the number's worth |
| Decimals.SplitWorth | packages/core-go/decimal.go:54-93 | the sign and trimmed parts are worth the number spelled, zero having no sign |
| Decimals.WorthOrder | packages/core-go/decimal.go:105-117 | lengths, then digits, then padded fractions compare the worth of trimmed parts |
| Decimals.PartsOrder | packages/core-go/decimal.go:96-118 | comparing the parts with their signs is the order of the rational numbers |
| Decimals.SplitDecimal | packages/core-go/decimal.go:54-93 | the string's sign, integer and fraction digits after shifting and trimming |
| Decimals.Compare | packages/core-go/decimal.go:96-118 | comparing two decimal strings of any length, sign and exponent is comparing their values |
| Times.FloorDivFloors | crates/truewire-core/src/times.rs:86-94 | the correction of truncating division floors, for either sign |
| Times.TextReads | crates/truewire-core/src/times.rs:183-191 | every numeral is read back from its text |
| Times.RoundIs | packages/core-ts/src/times.ts:121-121 | the quotient is the nearest integer, half away from zero, and the only one |
| Times.NanosOfNumeral | crates/truewire-core/src/times.rs:183-215 | the Rust reading, digit by digit, and when a numeral is refused |
| Times.FractionalNanos | packages/core-ts/src/times.ts:113-122 | the TypeScript reading by rational arithmetic, for every exponent the one integer nearest to the nanoseconds spelled, half away from zero |
| Times.ExactIsNearest | packages/core-ts/src/times.ts:108-122 | the arithmetic's fraction is the decimal times a second's nanoseconds over the unit, and its rounding the nearest integer to it |
| TimesLaws.FirstDigitDecides | crates/truewire-core/src/times.rs:209-211 | dropped digits are half a place or more exactly when the first of them is 5 or more |
| TimesLaws.FractionIsNearest | crates/truewire-core/src/times.rs:194-213 | for a unit whose nanoseconds are a power of ten, digit rounding gives the nearest nanosecond |
| TimesLaws.RuntimesAgree | crates/truewire-core/src/times.rs:183-215 | for such a unit both runtimes read every numeral without an exponent alike |
| TimesLaws.TenthsAgree | crates/truewire-core/src/times.rs:128-142 | and the declared units are such |
| TimesLaws.JustUnderHalfDiffers | crates/truewire-core/src/times.rs:204-213 | for any other unit that divides a second, just under half the last place kept is over half a nanosecond |
| TimesLaws.FractionRefused | crates/truewire-core/src/times.rs:194-197 | for a unit that does not divide a second the Rust runtime refuses every fraction |
| TimesLaws.OtherUnitsDiffer | crates/truewire-core/src/times.rs:183-215 | so every other unit has a numeral read differently |
| TimesLaws.UnitsThatAgree | crates/truewire-core/src/times.rs:183-215 | of all positive units exactly those whose nanoseconds are a power of ten are read alike on every numeral |
| TimesLaws.WholesThatAgree | packages/core-ts/src/times.ts:149-149 | in any unit a whole numeral is read alike exactly when it is not negative or a whole number of nanoseconds |
| TimesLaws.InstantKeepsNanos | crates/truewire-core/src/times.rs:169-172 | seconds and a non-negative rest hold the nanoseconds, before the epoch too |
| TimesLaws.DateKeepsNanos | packages/core-ts/src/times.ts:69-72 | a date, precise or not, holds the nanoseconds it was made from |
| TimesLaws.DumpIsLatest | crates/truewire-core/src/times.rs:218-221 | a written count is the latest that is not after the instant, on either side of the epoch |
| TimesLaws.DumpInvertsParse | crates/truewire-core/src/times.rs:217-221 | a whole count of either sign comes back from its instant exactly when it is a whole number of nanoseconds |
| TimesLaws.DeclaredUnitsComeBack | packages/core-ts/src/times.ts:161-164 | so every count of a unit that divides a second comes back |
| JsonPointer.UnescapeEscape | packages/core-go/errors.go:161-164 | an escaped key evaluates to the key |
| JsonPointer.EscapeCons | packages/core-go/errors.go:161-164 | a tilde is written `~0`, a slash `~1`, and every other character as it is |
| JsonPointer.ResolveKey | packages/core-go/errors.go:161-180 | a pointer with an escaped key in front looks up that member, then the rest |
| JsonPointer.ResolveIndex | packages/core-go/validation.go:460-463 | a pointer with an index in front looks up that item, then the rest |
| SortedKeys.SortedUnique | packages/core-go/validation.go:438-444 | there is one ascending list of a set of keys |
| SortedKeys.SortedInOrder | packages/core-go/validation.go:438-444 | and the sorted list is ascending |
| SortedKeys.SortStrings | packages/core-go/validation.go:438-444 | the in-place sort leaves the keys ascending, each as often as before |
| SortedKeys.SortedList | packages/core-go/validation.go:473-477 | a set's keys in ascending order |
| GoCodecLaws.RoundTrip | packages/core-go/validation.go:450-508 | decoding any document by any schema tree and encoding the value gives the document back, undocumented members and the matched variant included |
| GoCodecLaws.RecordRoundTrip | packages/core-go/validation.go:166-253 | so for a record, with extra members as `GoValues.RecordHolds` says |
| GoCodecLaws.FieldRoundTrip | packages/core-go/validation.go:129-162 | so for a field of each presence, absent, null or given |
| GoCodecLaws.VariantsRoundTrip | packages/core-go/validation.go:313-341 | the union's first matching variant is the one encoded |
| GoCodecLaws.PositionsRoundTrip | packages/core-go/validation.go:358-385 | so for a tuple |
| GoValues.RecordHolds | packages/core-go/validation.go:166-211 | a decoded record holds in slot `k` what field `k` makes of its own member, and as extra members exactly those of the document that no field is named after, whatever the presences |
| GoValues.UnionHolds | packages/core-go/validation.go:313-330 | a union holds the first variant that accepts the document and no other |
| GoValues.ListHolds | packages/core-go/validation.go:454-466 | a list holds what each item decodes to, in order |
| GoValues.TupleHolds | packages/core-go/validation.go:358-372 | a tuple holds what each item decodes to as the type of its position, and has as many |
| GoValues.MapHolds | packages/core-go/validation.go:467-494 | a map holds what each member decodes to under its key, and no other key |
| GoValues.RecordWrites | packages/core-go/validation.go:215-253 | an encoded record has each present field's value under its key and each extra member no field wrote, and nothing else |
| GoIssues.IssuesLead | packages/core-go/validation.go:166-211 | every issue's pointer, followed through type and document together, comes to a value that the type there refuses, or to a required member that is absent, for the reason given |
| GoIssues.RefusedResolves | packages/core-go/errors.go:161-180 | evaluating such a pointer finds a value, or names the one absent member of an object it finds |
| GoIssues.IssuesResolve | packages/core-go/validation.go:166-211 | so every issue's pointer evaluates to one or the other |
| GoIssues.RefusedFails | packages/core-go/validation.go:450-508 | a place of refusal anywhere in a document makes the whole decode fail |
| GoIssues.PlainIsAlike | packages/core-go/validation.go:101-104 | walked by the standard library a document decodes to the same value, or fails with issues whose places have only lost steps |
| GoIssues.PlainIsSameExactly | packages/core-go/validation.go:101-104 | exactly which types that walk decodes alike on every document: those in which it walks no list or map whose element type refuses any |
| GoIssues.PlainLeadsExactly | packages/core-go/validation.go:101-104 | and exactly those keep every issue in its place |
| GoIssues.RefusesNoneIsNoContainer | packages/core-go/validation.go:453-494 | an element type that refuses nothing is no list, map, record or tuple |
| GoIssues.FieldLeads | packages/core-go/validation.go:176-199 | one field's issues lead to what it refuses in the whole object, though its member has been taken out of the working copy |
| GoIssues.VariantsLead | packages/core-go/validation.go:317-329 | a union's issues lead to the union and to what each variant refuses |
| GoIssues.ListLosesPlace | packages/core-go/validation.go:101-104 | a list of records, optional and nullable, has an issue whose pointer leads nowhere |
| GoDecoder.PrefixIssues | packages/core-go/errors.go:172-175 | every issue located under the prefix |
| GoDecoder.DecodeValue | packages/core-go/validation.go:450-508 | the decoder with its loops computes the specified decoding |
| GoDecoder.DecodeObject | packages/core-go/validation.go:166-211 | the field loop with its deletions, and as extra members what `GoValues.RecordHolds` says |
| GoDecoder.DecodeUnion | packages/core-go/validation.go:313-330 | the first variant that decodes, or every variant's issues |
| GoDecoder.DecodeTuple | packages/core-go/validation.go:358-372 | positions in order, the first failure located by its index |
| GoDecoder.EncodeValue | packages/core-go/validation.go:129-142 | the encoder computes the specified encoding |
| GoDecoder.EncodeObject | packages/core-go/validation.go:215-253 | the members written and their order: fields present as declared, then the keys no field wrote, ascending |
| GoDecoder.EncodeExtras | packages/core-go/validation.go:241-250 | the extra members no field wrote, ascending |
| GoDecoder.EncodeUnion | packages/core-go/validation.go:333-341 | the one variant set, or a failure |
| ReplyLink.StepKeepsInv | crates/truewire-core/src/ws/socket.rs:241-327 | every step of requesters, readers and failers keeps the tables, slots and deliveries consistent |
| ReplyLink.RunKeepsInv | crates/truewire-core/src/ws/socket.rs:241-327 | so does every run |
| ReplyLink.Correlation | crates/truewire-core/src/ws/socket.rs:241-327 | over every run a reply ends only the request that allocated its id, on its connection, at most once, ids are never shared, and a failure is the one its connection recorded; `AwaitedReplyAnswers` says that replies arrive |
| ReplyLink.RunExtends | crates/truewire-core/src/ws/socket.rs:283-297 | the first failure, the ids and each request's end are never changed again |
| ReplyLink.NeverStuck | crates/truewire-core/src/ws/socket.rs:263-279 | once its connection has failed a request can always take a step of its own towards its end |
| ReplyLink.EndsOnceClosed | crates/truewire-core/src/ws/socket.rs:263-297 | at most four such steps end it, as it was ending already or with the first failure recorded |
| ReplyLink.EndsWithItsReply | crates/truewire-core/src/ws/socket.rs:263-272 | a request whose reply has come, as `ReplyArrives` says it does, can end with it, its connection failed or not |
| ReplyLink.ReplyArrives | crates/truewire-core/src/ws/socket.rs:305-311 | in every reachable state a reply read for a registered request fills that request's slot and changes no other |
| ReplyLink.RegisteredAwaits | crates/truewire-core/src/ws/socket.rs:242-249 | a request on an open connection awaits its reply once it has registered |
| ReplyLink.AwaitedReplyAnswers | crates/truewire-core/src/ws/socket.rs:241-272 | and from there at most four steps of its own end it with that reply |
| ReplyLink.NoLeak | crates/truewire-core/src/ws/socket.rs:170-184 | a request that is over has left the reply table |
| SendTurns.ChainResolves | packages/core-ts/src/http.ts:189-196 | the promise a call waits on has settled exactly when every earlier call has let go of its turn, aborted ones included |
| SendTurns.StepKeepsInv | packages/core-ts/src/http.ts:188-207 | every step keeps the chain, the turns, the spacing of starts and the starters |
| SendTurns.OneTurnInCallOrder | packages/core-ts/src/http.ts:188-207 | over every run at most one caller has the turn, and turns are granted in call order |
| SendTurns.PacedWindow | packages/core-ts/src/http.ts:275-284 | any window of `w` ms holds at most `floor(w * rate / 1000) + 1` starts |
| SendTurns.SlotsAreStarts | packages/core-ts/src/http.ts:275-312 | over every run the starts are the started calls' own, one each, in call order, and the next start time follows from the last of them alone, so an abandoned call consumes no slot |
| SendTurns.EveryCallCanStart | packages/core-ts/src/http.ts:195-206 | from every state of a run each call still waiting has a legal run of at most four steps a call that brings it to its start |
| Subscriptions.StepKeepsInv | packages/core-go/ws/correlate.go:117-253 | every step keeps each queue's books and its wake-up |
| Subscriptions.YieldsPrefix | packages/core-go/ws/correlate.go:165-244 | a stream yields, in order, a prefix of what was routed to its channel since it registered |
| Subscriptions.MessageArrives | packages/core-go/ws/correlate.go:165-177 | a message is put behind all that the queue of the channel it is for holds, by the key function when there is one, and into no other |
| Subscriptions.KeyIsKept | packages/core-go/ws/correlate.go:200-203 | a key function given with a subscription is the one the request channel's messages go by |
| Subscriptions.FirstIsYielded | packages/core-go/ws/correlate.go:224-244 | a consumer of a queue that holds something comes to yield its first item within three steps |
| Subscriptions.NoMissedWakeUp | packages/core-go/ws/correlate.go:126-134 | no consumer is blocked on a non-empty queue without a wake-up present or on its way |
| Subscriptions.LateDropSparesNewer | packages/core-go/ws/correlate.go:205-211 | a late drop never removes a newer subscription |
| SerialReplies.StepKeepsInv | packages/core-go/ws/correlate.go:60-115 | every step keeps one request outstanding, the last sent, and answers matched in order to those kept |
| SerialReplies.KthReplyToKthKept | packages/core-go/ws/correlate.go:88-115 | over every run the k-th request sent and not abandoned gets the k-th reply pushed |
| SerialReplies.OwnReplyExactly | packages/core-go/ws/correlate.go:88-115 | a reply comes as many places early as requests sent before were abandoned, and is the one at the request's own place exactly when none was |
| SerialReplies.ReplyIsTaken | packages/core-go/ws/correlate.go:98-115 | a request outstanding while a reply waits is answered with it within three steps |
| SerialReplies.NextReplyAnswers | packages/core-go/ws/correlate.go:77-115 | with none waiting the next reply pushed answers it |
| SerialReplies.AbandonedShiftsReplies | packages/core-go/ws/correlate.go:88-115 | a run in which a request given up after sending leaves its reply to the next |
| SerialReplies.NoMissedWakeUp | packages/core-go/ws/correlate.go:76-86 | a request blocked while replies wait has a wake-up present or on its way |
| AsyncQueues.Deferred.Resolve | packages/core-ts/src/ws/async.ts:16-18 | only the first resolution counts |
| AsyncQueues.AsyncQueue.Push | packages/core-ts/src/ws/async.ts:32-36 | items and waiters are never both non-empty, and the i-th pull resolves with the i-th push |
| AsyncQueues.AsyncQueue.Pull | packages/core-ts/src/ws/async.ts:38-43 | so too, resolved at once exactly when a push is ahead of it |
| VendoredText.StampOffset | packages/truewire/src/truewire/agents.py:83-90 | the stamp goes at the start or right after a line break |
| VendoredText.FindIsFirst | packages/truewire/src/truewire/agents.py:86-87 | what is found is the first occurrence, and nothing exactly when there is none |
| VendoredText.OffsetIsFrontMatter | packages/truewire/src/truewire/agents.py:83-90 | the stamp's place is the end of the front matter a text opens with, and the start exactly when none is closed |
| VendoredText.StampedKeepsFrontMatter | packages/truewire/src/truewire/agents.py:93-96 | a text that opens with closed front matter opens with just that once stamped, and the stamp is the next line |
| VendoredText.StampedFirst | packages/truewire/src/truewire/agents.py:93-96 | in any other text the stamp is the first line |
| VendoredText.OffsetKept | packages/truewire/src/truewire/agents.py:83-96 | stamping a text leaves its stamp offset where it was |
| VendoredText.ReadStampLine | packages/truewire/src/truewire/agents.py:29-56 | a stamp line reads back as its version and digest |
| VendoredText.UnstampStamped | packages/truewire/src/truewire/agents.py:93-119 | unstamping a stamped text gives its stamp and every character of the text, for every text and version without white space |
| VendoredText.StampingKeepsMark | packages/truewire/src/truewire/agents.py:44-46 | stamping neither adds nor hides a local-edit marker |
| VendoredUpdate.InstalledIsSane | packages/truewire/src/truewire/agents.py:67-80 | what the update rests on holds of every toolchain that ships no marked text |
| VendoredUpdate.ListedIsSurvey | packages/truewire/src/truewire/agents.py:147-190 | the survey lists each shipped path and each stray copy once, with its state, and nothing else; `VendoredLaws` says which state |
| VendoredUpdate.SettledIsUpdated | packages/truewire/src/truewire/agents.py:238-258 | dealing with the surveyed copies one by one brings every path to where its own state says |
| VendoredUpdate.UpdateIsFixpoint | packages/truewire/src/truewire/agents.py:228-259 | a second update changes nothing |
| VendoredUpdate.DriftLeft | packages/truewire/src/truewire/agents.py:228-259 | after an update only orphaned or refused paths drift |
| VendoredUpdate.KeepsOthersText | packages/truewire/src/truewire/agents.py:231-236 | without force, a marked file keeps its text, and an unshipped one does unless its digest is its stamp's |
| VendoredUpdate.ShippedTextArrives | packages/truewire/src/truewire/agents.py:228-259 | every shipped text not kept back or refused is there afterwards |
| VendoredUpdate.ReportsPaths | packages/truewire/src/truewire/agents.py:213-225 | each list of the report holds, in survey order, the paths dealt with that way |
| VendoredLaws.RemovedExactly | packages/truewire/src/truewire/agents.py:227-259 | `update`, forced or not, removes exactly the files it does not ship that lie inside the project, are unmarked and stamped, and have their stamp's digest |
| VendoredLaws.StrayKeepsText | packages/truewire/src/truewire/agents.py:227-259 | every other file it does not ship keeps its text |
| VendoredLaws.ShippedExactly | packages/truewire/src/truewire/agents.py:227-259 | a shipped path has the toolchain's copy afterwards, but for a kept mark and a path outside |
| VendoredLaws.ListExactly | packages/truewire/src/truewire/agents.py:213-225 | a list of the report holds a path exactly when the path is dealt with that way |
| VendoredLaws.StraysReported | packages/truewire/src/truewire/agents.py:238-258 | of the strays the removed are the untouched inside, the refused the untouched outside and the orphaned the edited ones, by digest |
| VendoredLaws.ShippedReported | packages/truewire/src/truewire/agents.py:238-258 | of the shipped the overwritten are the rewritten ones that were changed, by digest, or marked, and the written the others |
| VendoredLaws.RefusedExactly | packages/truewire/src/truewire/agents.py:248-251 | and the refused those outside whose text would change |
| VendoredLaws.ShippedStates | packages/truewire/src/truewire/agents.py:157-176 | a shipped path's state by its marker, its text and its digest |
| VendoredLaws.StrayStates | packages/truewire/src/truewire/agents.py:177-189 | a stray is retired while untouched, orphaned once edited, and not listed when marked or never stamped |
| VendoredUpdate.Project.Survey | packages/truewire/src/truewire/agents.py:147-190 | the survey's two loops compute the list, with the states of `VendoredLaws.ShippedStates` and `VendoredLaws.StrayStates` |
| VendoredUpdate.Project.Deal | packages/truewire/src/truewire/agents.py:239-258 | one copy written, removed or reported, by its state, the tree and where it lies |
| VendoredUpdate.Project.Update | packages/truewire/src/truewire/agents.py:228-259 | the tree afterwards and the report |

## Left out

- SeekWalk.All: the declared cap is the venue's page limit, and with no cap no key value fills a page; `SeekUncapped.AllUncapped` is about every walk without a cap.
- Seek.Seek.DedupRows: content equality is equality of rows; a caller's own `Equal` that joins different rows is not covered.
- Seek keys of other types, string ids without an order, rows without a key in a whole walk, exclusive bounds and a venue that changes during a walk: the single step covers keyless rows and unordered keys, the walk theorem does not.
- Fetch errors of a `seek` step: they end the step with no change of state; `Paging.RetriesStayOnTheWalk` says what retrying then sees.
- `TotalSeen`, `Exhausted`, `TotalReached` and `CursorOrDone` of `packages/core-go/paging.go`: short terminator helpers.
- Paging.PaginatedResponse.Pages: a consumer is one that stops after a number of pages; `All` is about walks that end.
- UnionChoice.RicherRecordIsBetter: assumes that the records' fields do not lead back to them, which `UnionChoice.StackedNeverBack` proves of every value that holds no cycle.
- UnionScore.ScoreOf: schema and value nodes are identities in finite graphs, and equality of literals is that of their type and text.
- JsonTextLaws.ValueReads: the two regular expressions are scanning functions, not a regular-expression engine; nesting depth is not limited.
- JsonParsers.WriteValue: values are trees, so the check for cycles with `seen` and `toJSON` are not covered; negative zero is zero.
- JsonRoundTrip.FastPathIsLossless: the language's own parser is the same grammar with every number a double; what it makes of a literal that is no safe integer is a parameter, and the text of its errors is not modelled.
- JsonSettled.ReadWriteRead: the parameter reads every literal as a double, and the decimal form of a double reads as that double unless it is an integer literal; which form is the shortest is not modelled.
- Decimals.Compare: exponents are unbounded, so an exponent `Atoi` refuses and the limits of `strings.Repeat` are not covered; the TypeScript twin (`packages/core-ts/src/decimal.ts`) is not modelled apart.
- Times.NanosOfNumeral: integers are unbounded, so the overflow refusals of `i128` are not covered; texts come trimmed.
- Times.FractionalNanos: a double's shortest decimal form, and the doubles `dump`, `dumpNumber` and `dump_number` make, are not modelled; the parts of the numeral are its input.
- Calendar arithmetic and RFC 3339 texts: not part of this model.
- GoCodecLaws.RoundTrip: leaf codecs give back what they accepted, which a Go integer that reads `25.0` or `null` does not; documents are values, so white space, member order and repeated keys are not covered.
- GoIssues.IssuesLead: field keys of a record are distinct, and no field both optional and nullable has a list or map whose element type refuses a document; `GoIssues.PlainLeadsExactly` says what holds of such a field.
- GoDecoder.EncodeObject: the order is that of one object's own members; documents are maps, so the order inside nested objects is not in the result.
- GoDecoder.DecodeValue: a value's other Go kinds (raw messages, byte slices, interfaces) are leaves, and the map failure reported is the first in key order.
- Message texts, causes, statuses and option builders of errors.
- ReplyLink.Correlation: serial acknowledgements, subscriptions and pings of the Rust link are not steps; the Go `Replies` and `Connection` are not modelled apart.
- SendTurns.PacedWindow: time is real numbers; recording the next start time, starting the fetch and letting go of the turn are one step, as nothing runs between them; retries are further calls.
- The TypeScript `Lock`, rejection of a `Deferred` and settled listeners.
- VendoredUpdate.Project.Update: the tree is a map from the paths that could be vendored to texts, `inside` is a set of paths, the digest is any function, and an emptied skill directory, symbolic links and newline translation are not covered.
- Dialing, TLS, proxies, gRPC, the mock server and the generated clients.
