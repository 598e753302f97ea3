# Ferro, verified

Ferro is a database access engine: a Rust daemon that pools PostgreSQL and MySQL connections, and PHP
drivers that talk to it. This project models the parts of Ferro where a mistake would be silent, and
proves in Dafny what they promise.

| module | what it models |
|---|---|
| `Utf8`, `Texts`, `DecimalText`, `Wrappers` | bytes, Rust strings and their slices; concatenation; numbers as decimal text; optional values |
| `Placeholder`, `PlaceholderRules`, `Scanner`, `PlaceholderCache` | the `?` to `$n` scanner: a reference segmenter, the documented rules it is the only one to obey, the byte loop, the bounded memo in front of it |
| `MyText`, `Bind`, `BindLaws`, `TemporalLaws`, `TemporalSpellings`, `RowMap`, `RowMapLaws` | MySQL cells to canonical text and back: renderers, strict parsers, column classification |
| `Tracker`, `MysqlConn`, `MysqlQuery`, `MysqlLease`, `MysqlLaws` | the MySQL connection whose handle a row stream owns for a while; statements on it; whole leases |
| `DbalResult`, `DbalResultLaws`, `DbalConnection`, `DbalRuns` | the Doctrine result (one lazy cursor), the connection that carries one request at a time, and a result inside the runs of its connection |
| `FiberLoop`, `LoopRead` | the cooperative Fiber scheduler, and what it reads when nothing is ready |
| `Fnv1a` | the registry hash, on 64 bits and on four 16-bit limbs |
| `Quote` | string literals of the Laravel shim, per database family |
| `PhpJson`, `Manifest`, `ManifestJson`, `ManifestLoad` | decoded JSON, the checked-SQL manifest and the canonical bytes its hash covers |

## How the model is built

* **A reference beside every loop.** Code that works by changing things is a class or a loop here too; its
  contract ties it to a function or a quantified statement written independently of it. The scanner loop,
  with its identifier flag, is tied to a segmenter that lexes whole identifiers; the limb arithmetic to the
  wrapping 64-bit hash; the printers to a declarative reading of digits.
* **A law beside every reference.** What a reference says is proved again in other words: the segmentation
  is the only one the documented rules admit, a bound value is the one its parameter denotes, the canonical
  bytes read back as the declarations, a stream opened on a connection hands out its producer's rows.
* **Failures are inputs.** Every driver await is a value of a script, so "for all scripts" is "whatever the
  driver and the server answer". Runs are sequences of calls with such scripts, and the main results are
  about every run.
* **Panics are preconditions.** Slicing a Rust string off a character boundary panics, and so does using
  the driver of a parked connection; `Utf8.Slice` and the `mysql.Some?` preconditions state those conditions,
  so a method that verifies cannot panic. The parsers ask for `Cuts`, which every Rust string has
  (`Utf8.StrHasCuts`).
* **False properties get their exact condition.** A date outside year 9999, month 12, day 31 prints but does
  not parse (`TemporalLaws.DateRoundTrip` and its siblings are exact); a quoted literal is not read back when
  the text after it goes on with the literal (`Quote.QuotedDenotesItself` is an equivalence, and
  `Quote.AdjacentLiteralsJoin` shows what is read instead); the scanner leaves a statement alone
  exactly when no `?` or `??` stands in code (`Placeholder.UnchangedIff`).

Where code and comments disagree the code is followed: `stream.rs` says at lines 269-271 that the caller sees
the column refusal in either case, but the code below it (276-283) reports the drain failure when there is
one, and so does `MysqlLease.LateRefusalRecoversOrReportsDrain`.

## Model

| member | source | states |
|---|---|---|
| `Utf8.BoundaryIffSplit` | engine/crates/ferro-backend-pg/src/placeholder.rs:171-182 | the one-byte boundary test finds exactly the positions that split a well-formed string into two well-formed strings |
| `Utf8.StrHasAsciiCuts` | engine/crates/ferro-backend-pg/src/placeholder.rs:171-173 | in a well-formed string a character starts after every ASCII byte, which is why byte-level special cases are safe |
| `Utf8.CharIsEncoded` | engine/crates/ferro-backend-pg/src/placeholder.rs:171-182 | a character of a string is the encoding of one character number: shortest form, no surrogate, nothing past U+10FFFF (section 3 of RFC 3629) |
| `Utf8.EncodedIsChar` | engine/crates/ferro-backend-pg/src/placeholder.rs:171-182 | and the encoding of every character number is one character, whatever follows |
| `DecimalText.PadPrints` | engine/crates/ferro-backend-mysql/src/mytext.rs:233-246 | zero-padded printing yields digits that denote the number, at least the width, with no needless leading zero |
| `DecimalText.PrintsUnique` | engine/crates/ferro-backend-mysql/src/mytext.rs:233-246 | that description determines the text |
| `Placeholder.QuotedShape` | engine/crates/ferro-backend-pg/src/placeholder.rs:62-97 | a quoted token ends at its first unpaired quote, or runs unterminated to the end |
| `Placeholder.DelimiterEnd` | engine/crates/ferro-backend-pg/src/placeholder.rs:184-209 | a dollar-quote delimiter is found exactly when some prefix is `$`, a tag that starts with no digit, `$` |
| `Placeholder.Find` | engine/crates/ferro-backend-pg/src/placeholder.rs:211-220 | the answer is the first occurrence at or after the start |
| `Placeholder.LexPartitions` | engine/crates/ferro-backend-pg/src/placeholder.rs:38-169 | the segments of every statement concatenate to the statement |
| `Placeholder.RenderIsItsPieces` | engine/crates/ferro-backend-pg/src/placeholder.rs:38-169 | the output is the concatenation of one piece per segment |
| `Placeholder.RenderNumbersInOrder` | engine/crates/ferro-backend-pg/src/placeholder.rs:147-164 | the k-th lone `?` is written `$k`, and every literal, identifier, comment and dollar-quoted segment byte for byte |
| `Placeholder.UnrenderRecovers` | engine/crates/ferro-backend-pg/src/placeholder.rs:38-169 | knowing the segment kinds, the pieces give the source statement back |
| `Placeholder.LexIsHonest` | engine/crates/ferro-backend-pg/src/placeholder.rs:147-165 | only `?`, `??` and the `?` of a jsonb operator are segments that begin with a question mark |
| `Placeholder.RewritesIff` | engine/crates/ferro-backend-pg/src/placeholder.rs:147-164 | a statement is rewritten exactly when some segment is a lone or a doubled `?` |
| `Placeholder.UnchangedIff` | engine/crates/ferro-backend-pg/src/placeholder.rs:38-169 | the output equals the statement if and only if no segment is a lone or a doubled `?` |
| `Placeholder.NoQuestionMarkUnchanged` | engine/crates/ferro-backend-pg/src/placeholder.rs:38-169 | SQL without `?` is unchanged |
| `PlaceholderRules.TokenObeys` | engine/crates/ferro-backend-pg/src/placeholder.rs:1-17 | every token is one by the documented rule of its kind, written down byte by byte: a name to its end, a literal to its unpaired quote, a comment to its line end or its matching close, a dollar quote to the next copy of its delimiter; `??` is an escape, a mark before a bar or an ampersand an operator, any other mark a parameter |
| `PlaceholderRules.TokenIsUnique` | engine/crates/ferro-backend-pg/src/placeholder.rs:1-17 | and nothing else is a token at that place |
| `PlaceholderRules.OneSegmentation` | engine/crates/ferro-backend-pg/src/placeholder.rs:1-17 | for every statement the rules admit exactly one segmentation, and it is the one the scanner follows |
| `PlaceholderRules.WrittenInOrder` | engine/crates/ferro-backend-pg/src/placeholder.rs:147-165 | what is written for each of its segments: a dollar sign and the number of the parameter, counted from 1, one mark for an escape, and any other segment as it stands |
| `PlaceholderRules.NestedCommentIsOneToken` | engine/crates/ferro-backend-pg/src/placeholder.rs:106-124 | a comment with comments nested in it to any depth is one token, whatever follows |
| `Scanner.PushByte` | engine/crates/ferro-backend-pg/src/placeholder.rs:174-182 | copies exactly one character and stops on a boundary |
| `Scanner.CopyQuoted` | engine/crates/ferro-backend-pg/src/placeholder.rs:62-97 | copies a quoted token byte for byte up to where the reference ends it |
| `Scanner.CopyLineComment` | engine/crates/ferro-backend-pg/src/placeholder.rs:99-105 | copies a line comment, newline excluded |
| `Scanner.CopyBlockComment` | engine/crates/ferro-backend-pg/src/placeholder.rs:107-124 | copies a nested block comment up to its matching close |
| `Scanner.DollarQuoteTagEnd` | engine/crates/ferro-backend-pg/src/placeholder.rs:188-209 | finds the delimiter end of the reference |
| `Scanner.FindSubslice` | engine/crates/ferro-backend-pg/src/placeholder.rs:212-220 | first occurrence, none for an empty needle |
| `Scanner.CopyDollarQuote` | engine/crates/ferro-backend-pg/src/placeholder.rs:126-140 | copies a dollar-quoted body with its closing delimiter, or the unterminated rest; every slice is on a boundary |
| `Scanner.CopyQuestionMark` | engine/crates/ferro-backend-pg/src/placeholder.rs:147-164 | an escaped `??`, the two jsonb operators and a lone `?`, as the reference writes them |
| `Scanner.CopyToken` | engine/crates/ferro-backend-pg/src/placeholder.rs:60-166 | the arms of the match together copy exactly the next token |
| `Scanner.ScanStep` | engine/crates/ferro-backend-pg/src/placeholder.rs:49-166 | one turn of the loop advances, stays on a boundary and keeps output plus remaining work constant, through the identifier flag |
| `Scanner.TokenEndIsBoundary` | engine/crates/ferro-backend-pg/src/placeholder.rs:171-173 | every token of a string ends on a character boundary |
| `Scanner.RenderIsWellFormed` | engine/crates/ferro-backend-pg/src/placeholder.rs:38-169 | the rendered statement is well-formed UTF-8 |
| `Scanner.Scan` | engine/crates/ferro-backend-pg/src/placeholder.rs:38-169 | on every string the loop terminates, takes no slice off a boundary, and writes what segment-then-render writes |
| `PlaceholderCache.MemoOverRuns` | engine/crates/ferro-backend-pg/src/placeholder.rs:239-252 | over every run of lookups the kept statements are distinct, at most the cap, and include the last one looked up |
| `PlaceholderCache.KeptAreTheLast` | engine/crates/ferro-backend-pg/src/placeholder.rs:246-250 | the kept statements are the last ones missed, in order, and all of them while they fit |
| `PlaceholderCache.MissAppends` | engine/crates/ferro-backend-pg/src/placeholder.rs:243-250 | a miss leaves the last min(cap, misses) missed statements in miss order |
| `PlaceholderCache.Cache.Hit` | engine/crates/ferro-backend-pg/src/placeholder.rs:239-242 | a hit gives the right answer and changes nothing; no hit means the key is not queued |
| `PlaceholderCache.Cache.Insert` | engine/crates/ferro-backend-pg/src/placeholder.rs:243-251 | map keys stay exactly the queue, the queue stays the last missed statements |
| `PlaceholderCache.Cache.EvictPastCap` | engine/crates/ferro-backend-pg/src/placeholder.rs:246-250 | evicts oldest first, from queue and map alike, until the cap holds |
| `PlaceholderCache.Cache.Bounded` | engine/crates/ferro-backend-pg/src/placeholder.rs:224-252 | the map never holds more than the cap |
| `PlaceholderCache.GetOrInsert` | engine/crates/ferro-backend-pg/src/placeholder.rs:239-252 | for every sequence of lookups the answer is what a fresh scan gives |
| `Bind.Digits` | engine/crates/ferro-backend-mysql/src/bind.rs:297-302 | a parsed field is below its width's power of ten, so no cast truncates |
| `Bind.SplitDate` | engine/crates/ferro-backend-mysql/src/bind.rs:200-212 | slices on boundaries; whatever is accepted is in the calendar bounds |
| `Bind.SplitTimeOfDay` | engine/crates/ferro-backend-mysql/src/bind.rs:218-239 | slices on boundaries; whatever is accepted is a wall clock |
| `Bind.SplitDateAndTime` | engine/crates/ferro-backend-mysql/src/bind.rs:242-249 | slices on boundaries; date and clock both in bounds |
| `Bind.ParseTime` | engine/crates/ferro-backend-mysql/src/bind.rs:262-292 | an accepted duration is in the TIME range and has no negative zero |
| `Bind.ValueToMy` | engine/crates/ferro-backend-mysql/src/bind.rs:95-123 | a value without a MySQL form is refused with a known fate, never reported as a lost connection |
| `BindLaws.BindsWhatItDenotes` | engine/crates/ferro-backend-mysql/src/bind.rs:95-123 | a parameter binds to a driver value if and only if it denotes it, stated by kind of value: NULL to NULL and nothing else to NULL, numbers, bytes and texts (UUID and JSON included) to their own form, decimals and moments exactly when their text is one |
| `BindLaws.DecimalIff` | engine/crates/ferro-backend-mysql/src/bind.rs:166-179 | a decimal text is a sign or none, digits, and then a dot and digits or nothing |
| `BindLaws.DateSpellings` | engine/crates/ferro-backend-mysql/src/bind.rs:196-212 | the date parser reads exactly the printed dates of the calendar |
| `Bind.ToParams` | engine/crates/ferro-backend-mysql/src/bind.rs:79-88 | all parameters in their places, or a refusal exactly when some parameter does not bind |
| `MyText.TimeToText` | engine/crates/ferro-backend-mysql/src/mytext.rs:139-173 | only durations with in-range clock fields print, as ASCII |
| `TemporalLaws.DateRoundTrip` | engine/crates/ferro-backend-mysql/src/mytext.rs:80-89 | a printed date parses back to itself exactly when year, month and day are in the calendar bounds, zero dates included |
| `BindLaws.DateLayout` | engine/crates/ferro-backend-mysql/src/mytext.rs:233-235 | where the digits of year, month and day stand in a printed date |
| `BindLaws.ClockLayout` | engine/crates/ferro-backend-mysql/src/mytext.rs:240-246 | where the digits of hour, minute, second and microsecond stand in a printed clock, and that a zero fraction is absent |
| `BindLaws.MomentLayout` | engine/crates/ferro-backend-mysql/src/mytext.rs:93-128 | a printed moment is its date, a space or `T`, its clock, and `Z` for an instant |
| `BindLaws.Edges` | engine/crates/ferro-backend-mysql/src/mytext.rs:62-70 | the sentinel's spelling, and that 838:59:59.999999 prints and a microsecond more does not |
| `TemporalLaws.DateNormalises` | engine/crates/ferro-backend-mysql/src/bind.rs:127-130 | whatever the date parser accepts prints as the same text |
| `TemporalLaws.DatetimeRoundTrip` | engine/crates/ferro-backend-mysql/src/mytext.rs:93-101 | the same for naive date-times |
| `TemporalLaws.DatetimeNormalises` | engine/crates/ferro-backend-mysql/src/bind.rs:134-136 | print after parse is an idempotent normaliser that changes nothing but a zero fraction |
| `TemporalLaws.TimestamptzRoundTrip` | engine/crates/ferro-backend-mysql/src/mytext.rs:117-128 | the same for instants, with the all-zero sentinel |
| `TemporalSpellings.DatetimeSpellings` | engine/crates/ferro-backend-mysql/src/bind.rs:242-254 | the naive parser reads a text as a value if and only if the value is in bounds and the text is its printed form or that with a zero fraction spelled out |
| `TemporalSpellings.InstantSpellings` | engine/crates/ferro-backend-mysql/src/bind.rs:138-156 | the UTC parser reads a text as a value if and only if the value is in bounds and the text is its `T`...`Z` form, that with a zero fraction spelled out, or both are the all-zero sentinel |
| `TemporalSpellings.TimestamptzNormalises` | engine/crates/ferro-backend-mysql/src/bind.rs:145-156 | print after parse is an idempotent normaliser of instants that drops a zero fraction, writes the all-zero moment as the sentinel, and changes nothing else |
| `TemporalLaws.NaiveAndUtcDisjoint` | engine/crates/ferro-backend-mysql/src/bind.rs:134-156 | the naive and the UTC parser accept a common string if and only if it is the all-zero sentinel |
| `TemporalLaws.DateToTextInjective` | engine/crates/ferro-backend-mysql/src/mytext.rs:80-89 | different dates print differently, out-of-calendar ones included |
| `TemporalLaws.DatetimeToTextInjective` | engine/crates/ferro-backend-mysql/src/mytext.rs:93-101 | different date-times print differently |
| `TemporalLaws.TimestamptzToTextInjective` | engine/crates/ferro-backend-mysql/src/mytext.rs:117-128 | different instants print differently, the sentinel included |
| `TemporalLaws.TotalIsClamped` | engine/crates/ferro-backend-mysql/src/mytext.rs:145-155 | saturating at every step is the true sum saturated once |
| `TemporalLaws.SaturationIsExact` | engine/crates/ferro-backend-mysql/src/mytext.rs:145-161 | for every u32 day count the saturating sum passes the range check exactly when the true magnitude does, and then equals it |
| `TemporalLaws.TimeParserRange` | engine/crates/ferro-backend-mysql/src/bind.rs:256-292 | the parser accepts a printed duration exactly when its magnitude is at most 838:59:59.999999 |
| `TemporalLaws.TimeRoundTrip` | engine/crates/ferro-backend-mysql/src/mytext.rs:130-173 | a cell prints exactly when it is in range, and then parses back to itself with the sign of zero cleared |
| `TemporalSpellings.TimeSpellings` | engine/crates/ferro-backend-mysql/src/bind.rs:256-302 | the TIME parser reads a text as a duration if and only if the duration is in range and the text is one to three hour digits of its hours, the two-digit minutes and seconds, its fraction (a zero one absent or spelled out) and its sign (either at zero) |
| `TemporalSpellings.TimeNormalises` | engine/crates/ferro-backend-mysql/src/bind.rs:256-292 | whatever the TIME parser accepts prints, as a spelling of the same value that parses back to it |
| `RowMapLaws.ReadsExactly` | engine/crates/ferro-backend-mysql/src/rowmap.rs:153-246 | for every column and every cell that is not NULL: the cell is read if and only if the column's type can hold it, and then as the number, bytes or printed moment it stands for under that type |
| `RowMapLaws.NothingIsLost` | engine/crates/ferro-backend-mysql/src/rowmap.rs:308-350 | two cells of one column are read as the same value if and only if they hold the same content; only a TINYINT(1) is cut down to whether it is zero, and only a zero TIME loses its sign |
| `RowMapLaws.WholeRangeIsRead` | engine/crates/ferro-backend-mysql/src/rowmap.rs:158-182 | every integer in the range of its column's width and sign, in either form of the driver, is read as itself |
| `RowMapLaws.TypesNeverMix` | engine/crates/ferro-backend-mysql/src/rowmap.rs:187-194 | inside the calendar bounds exactly the parser of the column's own temporal type reads the text of its cell, but for the all-zero sentinel, which both the naive and the UTC parser read |
| `RowMap.RefusePreparedNull` | engine/crates/ferro-backend-mysql/src/rowmap.rs:287-295 | refuses exactly the lists with a NULL-typed column |
| `RowMap.BuildCols` | engine/crates/ferro-backend-mysql/src/stream.rs:174-183 | one tag per column in order, or a refusal exactly when some column has none |
| `RowMap.ExtractValue` | engine/crates/ferro-backend-mysql/src/rowmap.rs:308-350 | a decoded cell is NULL exactly when the driver's is, and otherwise has the tag the header promised |
| `RowMap.TagsTellKinds` | engine/crates/ferro-backend-mysql/src/rowmap.rs:255-271 | a tag names one kind of value and no other |
| `RowMap.WriteBack` | engine/crates/ferro-backend-mysql/src/rowmap.rs:308-350 | NULL binds back as NULL; every other cell that was read binds back as itself (in one integer form, as a double, 0 or 1, zero duration unsigned) exactly when it is in the calendar bounds |
| `RowMap.WrittenReadsTheSame` | engine/crates/ferro-backend-mysql/src/rowmap.rs:371-429 | reading the written cell gives the value first read |
| `Tracker.TxStatusFromOk` | engine/crates/ferro-backend-mysql/src/tracker.rs:72-77 | never Failed; in a transaction exactly when the packet says so |
| `Tracker.Summarize` | engine/crates/ferro-backend-mysql/src/tracker.rs:105-127 | each flag of the fold is its quantified statement over all trackers |
| `Tracker.OkReportsSessionMutation` | engine/crates/ferro-backend-mysql/src/tracker.rs:134-141 | the verdict is the quantified taint rule; no packet, no taint |
| `Tracker.OrderDoesNotMatter` | engine/crates/ferro-backend-mysql/src/tracker.rs:94-127 | the verdict is the same for every order of the trackers |
| `MysqlLaws.TaintCases` | engine/crates/ferro-backend-mysql/src/tracker.rs:55-100 | a changed variable other than `autocommit` (in any spelling) taints whatever else is reported; toggling `autocommit`, transaction control and a plain statement do not; a bare state change does |
| `MysqlConn.TxStatusOf` | engine/crates/ferro-backend-mysql/src/conn.rs:390-400 | Failed exactly when parked |
| `MysqlConn.Conn.constructor` | engine/crates/ferro-backend-mysql/src/conn.rs:264-320 | a fresh connection holds its handle, untainted and open |
| `MysqlConn.Conn.Park` | engine/crates/ferro-backend-mysql/src/conn.rs:106-110 | takes the handle out, nothing else changes |
| `MysqlConn.Conn.Unpark` | engine/crates/ferro-backend-mysql/src/conn.rs:112-116 | puts a handle back, nothing else changes |
| `MysqlConn.Conn.RecordSessionMutation` | engine/crates/ferro-backend-mysql/src/conn.rs:128-136 | the taint only grows, by the quantified rule on the last packet |
| `MysqlConn.Conn.MapStmtError` | engine/crates/ferro-backend-mysql/src/conn.rs:138-154 | closes on a fatal error only; a lost connection is reported for fatal errors only |
| `MysqlConn.Conn.IsClosed` | engine/crates/ferro-backend-mysql/src/conn.rs:335-348 | a parked wrapper is dead; otherwise the flag or the driver says so |
| `MysqlConn.Conn.TakeSessionMutated` | engine/crates/ferro-backend-mysql/src/conn.rs:404-408 | reads and clears the taint |
| `MysqlConn.Conn.Reset` | engine/crates/ferro-backend-mysql/src/conn.rs:416-433 | clears the taint on success, closes on failure |
| `MysqlConn.Conn.Ping` | engine/crates/ferro-backend-mysql/src/conn.rs:322-333 | closes on failure |
| `MysqlConn.Conn.SimpleQuery` | engine/crates/ferro-backend-mysql/src/conn.rs:452-461 | one send; taint recorded on success, fate mapped on failure |
| `MysqlQuery.CheckPreflight` | engine/crates/ferro-backend-mysql/src/stream.rs:208-218 | passes exactly when columns, arity and every payload pass, and reports the column refusal first |
| `MysqlQuery.HandBack` | engine/crates/ferro-backend-mysql/src/stream.rs:276-282 | a recovered handle is unparked and its taint recorded; a failed drain changes nothing |
| `MysqlQuery.Open` | engine/crates/ferro-backend-mysql/src/stream.rs:197-373 | both dispatch arms: what goes out, who owns the handle afterwards, and that a stream and its header follow the executed columns where the server sent any, the prepared ones where it sent none; a lost connection is reported if and only if a driver call logged by this `open` failed fatally |
| `MysqlLaws.SentIff` | engine/crates/ferro-backend-mysql/src/stream.rs:208-218 | a statement goes out exactly when no prepared column is NULL-typed or unsupported, the parameters are as many as the placeholders and each has a driver form; otherwise the columns are complained about first |
| `MysqlLaws.OpenedFollowsExecuted` | engine/crates/ferro-backend-mysql/src/stream.rs:240-258 | what a successful `open` hands out, from the driver's answers alone: a stream over the executed columns, over the prepared ones, or the drained count and key |
| `MysqlQuery.Execute` | engine/crates/ferro-backend-mysql/src/stream.rs:228-372 | the half of `open` after the handle is parked: the handle is drained and handed back with its taint recorded, owned by the stream, or gone |
| `MysqlQuery.MapRow` | engine/crates/ferro-backend-mysql/src/stream.rs:127-150 | every cell in its place, or a refusal exactly when a cell is missing or does not decode |
| `MysqlQuery.Next` | engine/crates/ferro-backend-mysql/src/stream.rs:113-161 | rows, then one error or the end, then nothing |
| `MysqlQuery.Reclaim` | engine/crates/ferro-backend-mysql/src/stream.rs:379-415 | the handle goes back with count and key read after the drain, or the wrapper stays parked; a lost connection is reported if and only if the logged drain failed fatally |
| `MysqlQuery.MapRows` | engine/crates/ferro-backend-mysql/src/query.rs:172-187 | all rows mapped, or a refusal exactly when some row does not map |
| `MysqlQuery.MapDrained` | engine/crates/ferro-backend-mysql/src/query.rs:146-194 | header and rows are described from the executed columns where there are any, and every row is mapped or the query refused |
| `MysqlQuery.Run` | engine/crates/ferro-backend-mysql/src/query.rs:99-195 | preflight, one send, taint, then description and mapping; a lost connection is reported if and only if a driver call logged by this `run` failed fatally |
| `MysqlLaws.RunReturnsTheDrain` | engine/crates/ferro-backend-mysql/src/query.rs:146-195 | a buffered query succeeds exactly when its statement was prepared, allowed out and drained and all its columns and cells can be read; header, every cell of every row, count and key are then those of the drain |
| `MysqlLease.StepKeepsInv` | engine/crates/ferro-backend-mysql/src/conn.rs:81-126 | each pool call keeps one owner of the handle and the original session |
| `MysqlLease.EveryRunKeepsInv` | engine/crates/ferro-backend-mysql/src/stream.rs:197-415 | over every run with arbitrary driver failures, a connection not reported closed holds its original live session and no stream owns it |
| `MysqlLease.LostStaysLost` | engine/crates/ferro-backend-mysql/src/conn.rs:335-348 | a handle nobody owns is gone in every continuation: closed, status Failed |
| `MysqlLease.ExecutesOncePerCall` | engine/crates/ferro-backend-mysql/src/query.rs:99-195 | statements sent over a run are exactly the calls whose preflight passed; nothing is retried |
| `MysqlLease.OpenErrorsAreHonest` | engine/crates/ferro-backend-mysql/src/error_map.rs:57-86 | the fate of an `open` is unknown if and only if a call it awaited failed fatally; a preflight refusal leaves the connection as it was |
| `MysqlLease.RunErrorsAreHonest` | engine/crates/ferro-backend-mysql/src/query.rs:126-187 | the same for `run`, and then the connection reads closed; a refusal after the drain has a known fate and leaves the handle with its taint recorded |
| `MysqlLease.LateRefusalRecoversOrReportsDrain` | engine/crates/ferro-backend-mysql/src/stream.rs:328-349 | a column refused after the send recovers the handle with its taint recorded, or reports the drain failure instead |
| `MysqlLease.ReclaimRestoresOrKills` | engine/crates/ferro-backend-mysql/src/stream.rs:375-415 | a reclaim restores the original session with its taint, or leaves the wrapper dead |
| `MysqlLaws.LostReadsClosed` | engine/crates/ferro-backend-mysql/src/conn.rs:138-154 | after a call that lost the session the connection reads closed, and no other call closes it |
| `MysqlLaws.PacketIsTheLast` | engine/crates/ferro-backend-mysql/src/conn.rs:388-400 | what the pool reads off the wrapper after a call is the last packet the driver delivered for it: the transaction status is its flag |
| `MysqlLaws.TakeAndReset` | engine/crates/ferro-backend-mysql/src/conn.rs:402-433 | a take changes nothing but the taint; a reset clears it exactly if it succeeds |
| `MysqlLease.TaintOverRuns` | engine/crates/ferro-backend-mysql/src/conn.rs:128-136 | over every run without a take or a successful reset, the taint afterwards is the taint before, or some call of the run that recorded a packet the tracker rule calls a mutation |
| `MysqlLease.TaintIsReportedOnce` | engine/crates/ferro-backend-mysql/src/conn.rs:402-433 | what a take reports is whether some call since the last take or successful reset recorded a mutation, and it is gone right after |
| `MysqlLease.FreshLeaseRuns` | engine/crates/ferro-backend-mysql/src/conn.rs:264-320 | a fresh connection satisfies the invariant, and so does every state its runs reach |
| `MysqlLease.StreamIsRowsThenSilence` | engine/crates/ferro-backend-mysql/src/stream.rs:113-161 | a stream is open exactly as long as every event was a row that decoded; afterwards it never changes |
| `DbalResult.DrainGenerator` | php/doctrine-dbal/src/Result.php:181-185 | collects every remaining row in order, or ends in the producer's exception |
| `DbalResult.Result.Buffered` | php/doctrine-dbal/src/Result.php:76-79 | shows the given rows and count |
| `DbalResult.Result.Streamed` | php/doctrine-dbal/src/Result.php:93-99 | shows the producer's rows and terminal, count 0 until settled |
| `DbalResult.PullLeads` | php/doctrine-dbal/src/Result.php:216-249 | where a pull on the generator leads, in terms of what the caller saw before it: the next row, the producer's exception, or the end with its count |
| `DbalResult.Result.FetchNumeric` | php/doctrine-dbal/src/Result.php:114-146 | the next row, or the exception once, or false; the deferred advance is invisible |
| `DbalResult.Result.Materialize` | php/doctrine-dbal/src/Result.php:171-196 | keeps every remaining row and reports their number; on a broken stream the rows are gone and the exception is raised |
| `DbalResult.Result.RowCount` | php/doctrine-dbal/src/Result.php:369-375 | drains, then answers the terminal's count |
| `DbalResult.Result.FetchFirstColumn` | php/doctrine-dbal/src/Result.php:338-346 | one cell per remaining row, the first of the row, whatever it holds, `false` included |
| `DbalResult.Result.Free` | php/doctrine-dbal/src/Result.php:414-435 | no rows and no stream afterwards even if closing throws; the delivered count survives |
| `DbalResultLaws.StreamedRefinesBuffered` | php/doctrine-dbal/src/Result.php:107-196 | on every interleaving of fetches, counts and drains a streamed result over a successful producer answers as the buffered list does |
| `DbalResultLaws.RowsAreConserved` | php/doctrine-dbal/src/Result.php:114-196 | rows handed out plus rows left are the rows produced, in order |
| `DbalResultLaws.FetchOrder` | php/doctrine-dbal/src/Result.php:114-146 | every row before a mid-stream error, then the error once, then false for ever |
| `DbalResultLaws.CountIsStable` | php/doctrine-dbal/src/Result.php:359-435 | the count is the terminal's whenever it is asked, and after a free exactly if the terminal had been met |
| `DbalResultLaws.NothingIsLeft` | php/doctrine-dbal/src/Result.php:177-185 | a drain that meets the producer's error leaves nothing behind; a free leaves nothing but the count already delivered |
| `DbalConnection.Connection.SettleOpenStream` | php/doctrine-dbal/src/AbstractConnection.php:168-176 | drains a result still referenced and adds its cost, leaves a dropped one alone |
| `DbalConnection.Connection.OpenResult` | php/doctrine-dbal/src/AbstractConnection.php:261-275 | settle, refuse, one request on an idle session, then a fresh tracked result (`runPrepared` does the same) |
| `DbalConnection.Connection.ExecStatement` | php/doctrine-dbal/src/AbstractConnection.php:283-296 | settle, refuse, one request on an idle session |
| `DbalConnection.Connection.DriverRead` | php/doctrine-dbal/src/AbstractConnection.php:425-439 | the driver's own reads settle first |
| `DbalConnection.Connection.DoBegin` | php/doctrine-dbal/src/AbstractConnection.php:481-490 | settles, forgets a failed commit, then begins; nothing is sent inside an open transaction |
| `DbalConnection.Connection.DoCommit` | php/doctrine-dbal/src/AbstractConnection.php:492-504 | a failed commit remembers whether it ended the transaction; without an open transaction nothing is sent |
| `DbalConnection.Connection.DoRollBack` | php/doctrine-dbal/src/AbstractConnection.php:518-531 | silent without a request after a commit that ended the transaction, an error without any transaction |
| `DbalConnection.SettlingClearsWire` | php/doctrine-dbal/src/AbstractConnection.php:157-176 | after settling no stream is open, so the next request may go out |
| `DbalConnection.EveryRunKeepsInv` | php/doctrine-dbal/src/AbstractConnection.php:138-176 | for every sequence of calls and every moment a caller drops a result, the open stream is tracked, so that every request goes out on an idle session |
| `DbalConnection.SettledRowsAreRemainders` | php/doctrine-dbal/src/AbstractConnection.php:140-176 | over every run `settledRows` grows by exactly the remaining rows of the results that were open, still referenced and bound to end well when another call needed the session |
| `DbalConnection.OthersKeepMyRows` | php/doctrine-dbal/src/AbstractConnection.php:157-176 | a referenced result keeps all its remaining rows through everything else on the connection, unless its own stream breaks |
| `DbalConnection.DropCancels` | php/doctrine-dbal/src/Result.php:265-273 | dropping a result whose stream is open cancels it there and then, and only then |
| `DbalConnection.DroppedIsNeverDrained` | php/doctrine-dbal/src/AbstractConnection.php:166-176 | a dropped result is never drained in any continuation |
| `DbalConnection.RollbackAfterFailedCommit` | php/doctrine-dbal/src/AbstractConnection.php:506-531 | after a commit that failed and ended the transaction one rollback is a silent no-op, and only one |
| `DbalRuns.ViewIsItsCalls` | php/doctrine-dbal/src/AbstractConnection.php:157-176 | over every run of the connection a result its reader keeps is exactly where its own fetches and counts, and the drains other calls caused, have brought it |
| `DbalRuns.ReaderSeesTheBufferedList` | php/doctrine-dbal/src/Result.php:148-196 | over every run, for a stream that ends well, the rows handed out plus the rows left are the rows produced, and the answers are those a buffered list gives to the same calls |
| `DbalRuns.OpenedShowsItsProducer` | php/doctrine-dbal/src/AbstractConnection.php:261-275 | a stream that is opened shows all rows of its producer with the terminal ahead |
| `DbalRuns.OpenedReaderSeesTheProducer` | php/doctrine-dbal/src/AbstractConnection.php:261-344 | from the opening call on, over every run: the answers of a stream that ends well are those of the list of its producer's rows, and rows handed out plus rows left are exactly those rows |
| `DbalRuns.OpenedThenBroken` | php/doctrine-dbal/src/Result.php:114-146 | a stream whose producer breaks hands out every row produced, then the error once, then false |
| `DbalRuns.EndedAtOpen` | php/doctrine-dbal/src/AbstractConnection.php:322-344 | a statement complete at its opening has no rows and its count |
| `DbalRuns.OneRequestPerCall` | php/doctrine-dbal/src/AbstractConnection.php:283-296 | a call sends exactly one request unless it is turned away before; reading a result sends none |
| `DbalRuns.OutcomesAreHonest` | php/doctrine-dbal/src/AbstractConnection.php:261-344 | what a call reports: the settled stream's own error first, then the request's, and success after a request that succeeded or a rollback with nothing to do |
| `DbalRuns.TransactionFollowsItsCalls` | php/doctrine-dbal/src/AbstractConnection.php:481-531 | a transaction is open after a begin that succeeded and closed after a commit or rollback that did; nothing else touches it |
| `DbalRuns.FreeCancels` | php/doctrine-dbal/src/Result.php:396-435 | freeing a result cancels its stream if it is the open one, and leaves it empty |
| `FiberLoop.Loop.RunFiber` | php/client/src/Loop.php:83-91 | a Fiber passes its awaits while they are ready and no other, suspends only on one that is not, and makes progress when resumed with its waiter ready |
| `FiberLoop.Loop.Advance` | php/client/src/Loop.php:133-153 | files the Fiber in exactly one of waiting, results and errors; other Fibers do not move |
| `FiberLoop.Loop.ResumeEntry` | php/client/src/Loop.php:166-171 | resumes a Fiber whose waiter is ready, logs the await it was suspended on, and strictly reduces the awaits left |
| `FiberLoop.Loop.Pass` | php/client/src/Loop.php:164-172 | a pass that resumed nothing found no waiter ready and changed nothing |
| `FiberLoop.Loop.ReadAny` | php/client/src/Loop.php:173-175 | reads only when some Fiber waits and no waiter is ready |
| `LoopRead.JudgedFairly` | php/client/src/Loop.php:256-268 | a session is polled exactly when its socket has something, and probed exactly when it was silent for its whole timeout and the socket still has nothing |
| `LoopRead.Poller.Survey` | php/client/src/Loop.php:216-245 | finds the nearest clock or deadline, the silent sessions, and the first session that cannot be selected; starts exactly the clocks of the sessions looked at that had none |
| `LoopRead.Poller.Judge` | php/client/src/Loop.php:257-268 | polls or probes each session as its socket calls for, and restarts exactly those clocks |
| `LoopRead.Poller.ReadAny` | php/client/src/Loop.php:204-269 | one session is read, a session that cannot be selected is read alone; otherwise one select that lasts the nearest clock to within a millisecond, then every deadline, then the judgements; every clock afterwards is stated |
| `LoopRead.SelectEndsInTime` | php/client/src/Loop.php:220-252 | the select outlasts neither a second, nor what is left of any read timeout, nor any request deadline by more than a millisecond, and is no busy wait |
| `LoopRead.SilentIsProbedOnTime` | php/client/src/Loop.php:46-55 | in any run of reads a session whose socket never has anything keeps its clock whatever the others do, and is probed at the first read that comes its read timeout after that clock started, and at none before |
| `FiberLoop.Loop.StartAll` | php/client/src/Loop.php:155-161 | every task is started and placed |
| `FiberLoop.Loop.Drive` | php/client/src/Loop.php:123-189 | terminates with finitely many awaits if, however far the Fibers have come, some unfinished one is ready from some moment on; every await of every Fiber was passed, in order, at a moment it was ready; answers the verdict of the tasks, which no schedule influences |
| `FiberLoop.Loop.Collect` | php/client/src/Loop.php:178-188 | the earliest failing task's error, or every result in task order |
| `FiberLoop.FirstFailure` | php/client/src/Loop.php:178-182 | the verdict is the error of the first task that does not return: what it threw, or that it suspended with something foreign |
| `FiberLoop.AllReturn` | php/client/src/Loop.php:183-188 | if no task fails the verdict is the results in task order |
| `Fnv1a.EngineHash` | engine/crates/ferro-proto/build.rs:193-202 | 16 hex digits of the wrapping 64-bit FNV-1a |
| `Fnv1a.FnvAppends` | engine/crates/ferro-proto/build.rs:197-200 | one more byte: exclusive or first, then the product with the prime, modulo 2^64 |
| `Fnv1a.Constants` | engine/crates/ferro-proto/build.rs:194-195 | the prime is 2^40 + 2^8 + 0xb3, and the offset basis is that of the 64-bit hash |
| `Fnv1a.XorBits` | engine/crates/ferro-proto/build.rs:198-198 | exclusive or, bit by bit |
| `Fnv1a.DigitsAre` | engine/crates/ferro-proto/build.rs:201-201 | the hexadecimal digits, in lowercase |
| `Fnv1a.LowLimb` | proto/tools/gen-php.php:23-23 | exclusive or on the low limb is exclusive or on the whole |
| `Fnv1a.MultiplyByPrime` | proto/tools/gen-php.php:24-32 | limbs stay below 2^16, every partial product fits a PHP integer, and the limbs denote the product modulo 2^64 |
| `Fnv1a.CarriesCompute` | proto/tools/gen-php.php:28-32 | the carries compute the product modulo 2^64 |
| `Fnv1a.GeneratorHash` | proto/tools/gen-php.php:18-35 | the same 16 digits as the engine's hash, on every byte string |
| `Fnv1a.HexIsUnique` | engine/crates/ferro-proto/build.rs:201-201 | value and width determine a lowercase hex text |
| `Fnv1a.RegistryHashesMatch` | proto/tools/gen-php.php:11-17 | the text the generator computes and the text the engine's build computes from the same lock file are equal |
| `Quote.BodyReadsBack` | php/laravel/src/FerroPdoShim.php:215-231 | a doubled body reads as the string, followed by whatever the reader makes of the text after the closing quote |
| `Quote.HexReadsBack` | php/laravel/src/FerroPdoShim.php:227-227 | the hexadecimal form reads as the string |
| `Quote.QuotedDenotesItself` | php/laravel/src/FerroPdoShim.php:202-231 | for every string, family and session setting, the literal followed by any text reads as that string and leaves the text, if and only if the literal does not go on in that text (a quote right away; on PostgreSQL a quote after a gap with a newline, on MySQL after any gap, whichever comments the server executes) or is hexadecimal |
| `Quote.AdjacentLiteralsJoin` | php/laravel/src/FerroPdoShim.php:216-223 | where that fails: two literals across such a gap read as one literal of both strings |
| `Quote.QuoteIsInjective` | php/laravel/src/FerroPdoShim.php:202-231 | different strings have different literals |
| `Quote.RefusedIff` | php/laravel/src/FerroPdoShim.php:219-230 | a family whose literals are not known is refused, and no other |
| `Quote.Introducers` | php/laravel/src/FerroPdoShim.php:226-227 | how the escape form and the hexadecimal form begin |
| `Manifest.BodyIsUnique` | php/client/src/Manifest.php:170-180 | an escaped JSON string (section 7 of RFC 8259) and its closing quote are uniquely decodable whatever follows |
| `Manifest.PartIsUnique` | php/client/src/Manifest.php:173-177 | one part determines its id, declaration and what follows it |
| `Manifest.CanonicalIff` | php/client/src/Manifest.php:165-180 | two lists have the same canonical bytes if and only if they hold the same declarations in order |
| `ManifestJson.StringReads` | php/client/src/Manifest.php:174-175 | for every string and whatever follows, a reader of section 7 of RFC 8259 reads its JSON text as that string and leaves what follows |
| `ManifestJson.EscapeIsShortest` | php/client/src/Manifest.php:33-34 | two bytes for the seven characters with a named escape, six with lowercase digits for the other control characters, and no other byte is escaped |
| `ManifestJson.CanonicalReads` | php/client/src/Manifest.php:165-180 | the canonical bytes are one JSON document that says version 1 and, under each id in order, the sql, the pool, the readonly and the idempotent flag |
| `ManifestLoad.LessIsTotal` | php/client/src/Manifest.php:87-87 | byte order of ids is total and irreflexive |
| `ManifestLoad.LessIsLexicographic` | php/client/src/Manifest.php:87-87 | at the first place where two ids differ, the smaller has ended or has the smaller byte |
| `ManifestLoad.SortInOrder` | php/client/src/Manifest.php:87-87 | sorting yields strict byte order |
| `ManifestLoad.WithinIsAlike` | php/client/src/Manifest.php:87-88 | two sorted lists with the same declarations are the same list |
| `ManifestLoad.HashCoversTheDeclarations` | php/client/src/Manifest.php:79-88 | two accepted documents have the same canonical bytes if and only if they declare the same ids with the same sql, pool, readonly and idempotent, whatever the order or the `dto` |
| `ManifestLoad.BuildCanonical` | php/client/src/Manifest.php:170-180 | the loop writes the canonical bytes |
| `ManifestLoad.ParseAll` | php/client/src/Manifest.php:78-86 | every entry parsed in its place, or the error of the first one refused |
| `ManifestLoad.ParseQuery` | php/client/src/Manifest.php:99-163 | an accepted query has a valid id and says exactly the declaration it was accepted with |
| `ManifestLoad.AcceptedIff` | php/client/src/Manifest.php:79-163 | a query is accepted if and only if its id, fields, shapes, pool name and trimmed SQL are all acceptable |
| `ManifestLoad.NameRules` | php/client/src/Manifest.php:81-127 | which bytes an id and a pool name may hold and where, and how long an id may be |
| `ManifestLoad.NamesAreSpelled` | php/client/src/Manifest.php:40-40 | the field names |
| `ManifestLoad.FromDocument` | php/client/src/Manifest.php:64-97 | the document checks in order, then: the first refused entry is the error; a recorded hash is refused exactly when it is not that of the declarations; the loaded list is exactly what the document declares, in byte order |
| `ManifestLoad.LoadsIff` | php/client/src/Manifest.php:64-97 | every version-1 document with acceptable queries and nothing unknown loads if it records no hash, fails only as edited if it records one, and nothing else ever loads |
| `ManifestLoad.FromJson` | php/client/src/Manifest.php:57-97 | text is refused as no JSON exactly when the decoder refuses it, and otherwise the decoded document decides |

## Left out

- `PlaceholderCache.GetOrInsert`: does not model the process-wide mutex; lookups are sequential.
- `Scanner.Scan`: does not model the overflow of the 32-bit parameter counter, which needs four billion placeholders in one statement.
- Backslash escapes inside `E''` strings in the scanner: the code does not treat them either.
- `MysqlQuery.Open`: does not model the park conflict of a second stream on one checkout; a parked wrapper already fails the precondition of the prepare that comes first.
- `MysqlQuery.Run`: does not say which of several undecodable cells is named in the error, nor any message text or column name.
- The driver, the network, the server and the pool: scripted outcomes stand for them; timeouts, dialing, TLS, `disconnect`, `cancel` and `describe` are not modelled.
- The errno and SQLSTATE tables: only the split into fatal and server errors is used.
- `DbalConnection.Connection.OpenResult`: results live as views on a modelled heap, with the set of those still referenced standing for PHP's reference counts; the weak reference is a lookup in that set.
- `DbalResult.Result.Free`: does not model column names; `fetchAssociative`, `columnCount` and the `FetchUtils` delegates are easy members over `fetchNumeric`.
- `getServerVersion`, `setIsolation`, `quoteString` and the savepoint routing of the Doctrine connection: one-branch facts; the version read is an instance of `DriverRead`.
- The sticky `lastInsertId` of the Laravel shim: one assignment.
- A Fiber is the list of waiters it awaits and its end: its further awaits do not depend on the values it was given.
- Code of `ferro-classify`, the SQLite backend, `ferro-http`, the benchmarks and the test kit.
- `FiberLoop.Loop.Drive`: tasks are keyed by position rather than by arbitrary array keys; that some unfinished Fiber is ready from some moment on is what progress per read comes to.
- `FiberLoop.Loop.ReadAny`: a read is the passing of an arbitrary time; which sessions are read meanwhile is `LoopRead.Poller.ReadAny`, with the select, the clocks and the sessions' own answers as inputs.
- `DbalConnection.Connection.DoRollBack`: one Fiber; the client's refusal of a transaction that another Fiber opened is not modelled.
- `Quote.QuotedDenotesItself`: the PostgreSQL reader does not read octal, hexadecimal and Unicode escapes, which the quoter never writes; `_utf8mb4` validation of ill-formed text is the server's.
- `ManifestLoad.FromJson`: the JSON decoder, the whitespace expression and SHA-256 are arbitrary functions.
- `ManifestJson.CanonicalReads`: the reader reads what the canonical bytes can hold; arrays, `null`, fractions, insignificant whitespace and `\u` escapes beyond ASCII are not read.
