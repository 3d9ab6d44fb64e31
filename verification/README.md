# A verified model of the SCPI interpreter

This project models the embedded SCPI interpreter in `Utilities/Scpi/Src` and two small
arithmetic cores in `Src/Src`, and proves what they are for. It is plain Dafny 4.11:
`dafny verify dfyconfig.toml` checks everything.

The interpreter receives bytes in arbitrary pieces, finds newline-terminated lines in a buffer,
cuts each line into program message units, extends relative headers in place, looks them up,
runs a handler, and writes the responses with their separators. The same bytes are read up to
three times, each time with another idea of where the text ends. Errors go into a ring and,
through a cascade of status registers, into the status byte and service requests.

Code that changes things step by step is modelled by classes, loops and arrays, each method
proved against a function; the theorems are about those functions and about every run of them.
A character stands for a byte, a pointer for a position in one text, a 32-bit word for an
integer in its range (sizes and counters that the source never lets wrap are unbounded).

| files | content |
|---|---|
| `Lexer`, `LexerCode`, `LexerLaws` | the lexer: specification, code, and how it behaves when its text is moved or cut |
| `Grammar`, `DataGrammar`, `Messages` | headers, data and messages put together from their parts, independently of the lexer, and how they are read back |
| `Framing`, `FramingCode`, `FramingLaws` | program data and message units on top of it |
| `QuoteLoop`, `Ending` | when the loops of the lexer, of SCPI_Parse and of SCPI_Input come to an end |
| `Line`, `Resolution` | the scan of a buffer, the run of a line, header composition, and the headers a line names |
| `WholeLines`, `Chunking`, `StuckLines` | lines that are complete in themselves, independence of chunking, lines that are not found |
| `Params` | reading parameters against the pass that counted them |
| `Response` | what is written for a line against the response message |
| `Handlers` | what handlers do; the errors, replies and verdicts that follow from the events of lines |
| `Interpreter` | the context with its buffers: SCPI_Input, SCPI_Parse, processCommand, SCPI_Parameter |
| `QuotedText`, `ArbitraryBlock` | round trips of strings and blocks |
| `Numerals`, `IntPrinter` | numerals, and the integer printer of the responses in its four bases |
| `PrintfSpec`, `Printf`, `Formats` | the bounded formatter, and format strings put together from their parts |
| `StatusModel`, `Device`, `Fifo` | status registers, error queue and service requests |
| `ChannelList`, `ChannelCode`, `Walk` | channel lists: parsing by index, and their expansion into cells |
| `Crc` | table-driven CRC-CCITT against the serial register of ITU-T V.41 |
| `SmallUnits`, `Departures`, `Basics` | evaluation of small inputs, the concrete departures, what several files use |

A line is called whole if every string and every arbitrary block that is read in it is complete in
front of its line terminator, and a text if its terminated lines are. Texts without quotes and `#`
are whole (`WholeLines.PlainIsWhole`), and so are lines that send strings without line terminators
(`SmallUnits.StringLineIsWhole`).

Where the code departs from what its comments or the standards say, the code is modelled and the
departure is a theorem and a lemma at a concrete input; the theorem gives the exact condition, or
for the chunking of a stream a sufficient one:

* A handler that asks for all parameters gets those of the framing pass exactly when white space
  behind bare decimals fits into the space behind the last datum (`Params.TwoPassAgreement`). In
  `1 ,22` the last digit is lost without a complaint (`Departures.LastDigitLost`), in `1 ,2` the
  last parameter (`Departures.LastParameterLost`).
* A response is well formed exactly when the last command of the line answers, or none does, and
  no arbitrary block is a second result (`Response.ResponseWellFormed`,
  `Response.SilentCommandDangles`, `Departures.LateBlockRunsOn`).
* A positive device error raises no event bit, although the class table has a row for it
  (`StatusModel.DocumentedBitRaised`, `StatusModel.DeviceErrorUnmarked`).
* Extending an undefined header can overwrite the path of the header before it, or put a colon
  behind that path (`Line.PathSurvives`, `Departures.UndefinedHeaderSpoilsPath`,
  `Departures.ColonBehindPath`).
* A line with an empty unit such as `;;` is not found: it and everything behind it stay in the
  buffer until an empty call, which executes all of it as one line, or an overrun
  (`StuckLines.LineIsStuck`, `StuckLines.DrainStopsAtEmptyUnit`, `StuckLines.StuckForGood`,
  `StuckLines.EmptyCallExecutes`, `Departures.EmptyUnitSticks`).
* What is executed may depend on how a stream is cut into calls where a line is not whole
  (`Chunking.SameStreamSameUnits`, `Departures.OpenStringSplits`).
* A list of data that breaks off in front of a terminator is executed as a command without data,
  and not reported (`Handlers.BrokenList`, `Departures.BrokenListRuns`).
* SCPI_Input returns the verdict of the last line it executed, so errors of earlier lines are not
  in it (`Handlers.VerdictMisses`, `Departures.GoodLineHidesError`).
* On a byte above 0x7f inside a string the lexer does not return (`QuoteLoop.EndsExactly`,
  `QuoteLoop.MicroSignHangs`). Everything imperative is therefore stated for texts on which that
  loop ends, by exactly the passes the code makes; 7-bit texts and texts without quotes are such
  (`Ending.SafeDrain`).
* The text copy compares the index into the quoted form with the buffer length, so doubled quotes
  cost two places (`QuotedText.CopyIsWhole`, `QuotedText.DoubledQuoteCosts`).
* The '0' flag together with a precision prints fewer characters than the field asks for
  (`PrintfSpec.WidthExact`, `Departures.ZeroFlagNarrows`).
* A string conversion raises a precision that is smaller than the field to the width of the field,
  so that it does not cut the string to its length (`Formats.StringPrecision`,
  `Formats.PrecisionIgnored`).
* The error queue has one cell less than its indices run over, so that every seventeenth value
  added without a clear between them is stored behind it (`Fifo.OutsideExactly`,
  `Fifo.SeventeenthOutside`).
* TEST_Chanlst stores its final zero cell outside its array when the cells of the list fill it, and
  announces room for four values in arrays of two (`Walk.TestChanlst`, `Walk.TwelveCells`,
  `Walk.ThreeDimensions`).

## Model

| member | source | states |
|---|---|---|
| `Messages.MessageRoundTrip` | Utilities/Scpi/Src/parser.c:182-235 | the round trip of program messages: for every message put together from headers, queries included, and data of all seven kinds, with a CR, LF or CR LF behind it, SCPI_Parse finds every header if and only if every header is defined that the message names, and then it executes exactly the commands that were written, each with the data that were written, in order |
| `Messages.MessageIsFound` | Utilities/Scpi/Src/parser.c:297-310 | and SCPI_Input finds such a message as its first line, whatever follows in the buffer |
| `Messages.UnitReads` | Utilities/Scpi/Src/parser.c:1289-1333 | one unit of it, in front of a semicolon or a line terminator: the header token, the data token, the number of data and the terminator are those that were written |
| `Messages.ListReads` | Utilities/Scpi/Src/parser.c:1239-1280 | the list of its data: as many tokens as data, each all of its datum, and the length counted is the length written |
| `Messages.ItemReads` | Utilities/Scpi/Src/parser.c:1200-1230 | one datum in front of a separator, of any kind (name, number, number with suffix, #H, #Q or #B number, string, block, expression): one token of its kind over all of it |
| `Messages.HeaderLine` | Utilities/Scpi/Src/parser.c:182-235 | a line that is one header executes the command of that name, the question mark of a query included, or reports it as undefined |
| `Messages.SharedPath` | Utilities/Scpi/Src/parser.c:182-235 | a line of two headers, the second relative: it is executed under the path of the first, up to its last colon |
| `Messages.IdnQuery` | Utilities/Scpi/Src/parser.c:182-235 | the concrete line *IDN? |
| `Messages.VoltCommand` | Utilities/Scpi/Src/parser.c:182-235 | the concrete line CONF:VOLT:DC 1.5: the command gets the data 1.5 |
| `Grammar.HeaderRead` | Utilities/Scpi/Src/lexer.c:405-441 | headers character by character: an asterisk and a mnemonic, or mnemonics joined by colons, with or without a question mark, are one token of the right kind over all of it, the question mark included |
| `Grammar.IncompleteRead` | Utilities/Scpi/Src/lexer.c:375-441 | a colon behind a header with no mnemonic behind it makes the header incomplete and belongs to it |
| `Grammar.NoMnemonicRead` | Utilities/Scpi/Src/lexer.c:353-441 | an asterisk or a colon with no mnemonic behind it is an incomplete header of one character; a text that starts with neither of them nor a letter has no header |
| `Grammar.StrangeCharacter` | Utilities/Scpi/Src/parser.c:1301-1333 | a character behind a header that belongs neither to a header nor to white space nor to a terminator makes the unit invalid: it ends behind that character and has no data |
| `DataGrammar.NumeralRead` | Utilities/Scpi/Src/lexer.c:472-530 | numbers from their parts: sign, figures, a decimal point with figures, and a power of ten with white space around its letter are one decimal over all of it |
| `DataGrammar.SuffixRead` | Utilities/Scpi/Src/lexer.c:533-560 | suffixes from their parts: letters with a signed figure behind them, joined by slashes and points, are one suffix over all of it |
| `Messages.OpenString` | Utilities/Scpi/Src/lexer.c:663-702 | a string without its closing quote is no string, and the cursor stays |
| `Messages.OpenExpression` | Utilities/Scpi/Src/lexer.c:801-825 | nor is an expression without its closing parenthesis an expression |
| `Messages.NoDigitBehind` | Utilities/Scpi/Src/lexer.c:596-626 | nor is the prefix of a non-decimal number without a digit of its base behind it a number |
| `Line.LookaheadIsLocal` | Utilities/Scpi/Src/parser.c:297-305 | for every buffer, strings and blocks included: the line that SCPI_Input finds by scanning the whole buffer is cut by SCPI_Parse, which sees that line alone, into exactly the same units with the same header and data tokens |
| `Line.ParseRepeatsScan` | Utilities/Scpi/Src/parser.c:195-229 | the same from any unit boundary on |
| `Line.LineEndsInNl` | Utilities/Scpi/Src/parser.c:300-301 | a line that is found ends in a line terminator and is not empty, so the buffer shrinks in every round |
| `Line.DrainConserves` | Utilities/Scpi/Src/parser.c:297-306 | no byte is lost, invented or reordered: the lines executed followed by what stays in the buffer are the buffer |
| `Line.CompositionIsHarmless` | Utilities/Scpi/Src/parser.c:195-229 | although headers are rewritten in the line while it is executed, SCPI_Parse cuts the units of the line it was handed |
| `Line.ComposedText` | Utilities/Scpi/Src/utils.c:720-754 | a relative header becomes the path of the previous header followed by itself, although source and destination of the copy may overlap |
| `Resolution.LineNames` | Utilities/Scpi/Src/parser.c:195-229 | header composition over a whole line: SCPI_Parse finds every header if and only if every header is defined that the untouched line names, each relative one standing for the path of the one before it followed by itself, and then it executes exactly these, with their data, in order |
| `Resolution.RelativeHeader` | Utilities/Scpi/Src/utils.c:742-752 | a relative header stands for the path of the one before it, which ends in the last colon, followed by itself |
| `Resolution.AbsoluteHeader` | Utilities/Scpi/Src/utils.c:727-740 | a common header, one that starts with a colon, one behind a common header and the first one stand for themselves |
| `Line.PathSurvives` | Utilities/Scpi/Src/utils.c:742-752 | extending a header leaves the previous header the path that the next one will be resolved under, if and only if the copy does not run into that path, or the path repeats itself at that distance, and no colon of the copy lands in the rest of the previous header |
| `Departures.UndefinedHeaderSpoilsPath` | Utilities/Scpi/Src/parser.c:195-229 | the line A:B:C;X;Y executed with only A:B:C defined: the copy runs into the path, and Y is looked up as A:A:Y |
| `Departures.ColonBehindPath` | Utilities/Scpi/Src/parser.c:195-229 | the line A:B:CDEFG;X;Y with only the first header defined: the path stays in place, a colon lands behind it, and Y is looked up as A:B:CDA:Y |
| `StuckLines.LineIsStuck` | Utilities/Scpi/Src/parser.c:297-310 | when the loop gives up: a whole line is not found if and only if one of its units is empty and not ended by the terminator |
| `StuckLines.DrainStopsAtEmptyUnit` | Utilities/Scpi/Src/parser.c:297-310 | of several whole lines in the buffer exactly those in front of the first line with an empty unit are executed; that line and all behind it stay |
| `StuckLines.StuckForGood` | Utilities/Scpi/Src/parser.c:272-314 | once the first line of the buffer, being whole, is stuck, no later call that brings data gets anything executed, whatever the data are and however they are cut, as long as they fit: they only pile up behind it |
| `StuckLines.EmptyCallExecutes` | Utilities/Scpi/Src/parser.c:276-280 | until a call without data, which executes the stuck line and all behind it as one line |
| `Departures.EmptyUnitSticks` | Utilities/Scpi/Src/parser.c:272-314 | the concrete case: ;; with a good line behind it is not executed, nor is anything that later calls with data add, until an empty call executes all of it |
| `Chunking.SameStreamSameUnits` | Utilities/Scpi/Src/parser.c:272-314 | chunking independence: two ways of cutting one stream of whole lines into non-empty calls execute the same command units, errors included, line by line, and keep the same rest |
| `Departures.OpenStringSplits` | Utilities/Scpi/Src/parser.c:272-314 | why the lines must be whole: a line with a terminator inside a string, received at once, is executed; cut behind that terminator, its first half is executed and the second is stuck |
| `Chunking.ChunkingIrrelevant` | Utilities/Scpi/Src/parser.c:272-314 | any such way agrees with one call for the whole stream, from any buffer left by earlier calls |
| `Chunking.DrainSplit` | Utilities/Scpi/Src/parser.c:297-310 | for two parts of a stream of whole lines: draining after the first part and again after the second is draining once, also when the cut separates the two halves of a CR LF or falls inside a string |
| `Chunking.DrainKeepsWhole` | Utilities/Scpi/Src/parser.c:297-310 | what draining keeps of such a stream is whole again, with what is still to come |
| `Chunking.ScanOfLine` | Utilities/Scpi/Src/parser.c:297-310 | whether a whole line is found depends on the text up to its terminator only |
| `Chunking.RunOfLine` | Utilities/Scpi/Src/parser.c:182-235 | a whole line ended by CR has the events of the same line ended by CR LF |
| `WholeLines.BodyStays` | Utilities/Scpi/Src/parser.c:1289-1308 | what is read of a unit of a whole line stays in front of the line terminator, whatever follows it |
| `WholeLines.LineWholeSame` | Utilities/Scpi/Src/parser.c:1289-1333 | whether a line is whole depends on the line alone |
| `WholeLines.PlainIsWhole` | Utilities/Scpi/Src/parser.c:1200-1230 | texts without quotes and # are whole |
| `SmallUnits.StringLineIsWhole` | Utilities/Scpi/Src/lexer.c:633-702 | so is a line that sends a string, whatever the string is, unless it holds a line terminator |
| `Framing.DetectUnit` | Utilities/Scpi/Src/parser.c:1289-1333 | a unit of a non-empty text consumes at least one byte and never more than there is, and its header lies inside it: the loops over units make progress, once the quote loop below them comes to its end |
| `QuoteLoop.EndsExactly` | Utilities/Scpi/Src/lexer.c:633-647 | the quote loop, round by round, comes to an end if and only if no byte above 0x7f stands in front of the quote it looks for, and it ends at that quote or at the end of the text |
| `QuoteLoop.MicroSignHangs` | Utilities/Scpi/Src/lexer.c:633-647 | the concrete case: on a micro sign between quotes no number of rounds ends it |
| `Ending.SafeDrain` | Utilities/Scpi/Src/parser.c:272-314 | SCPI_Input returns on every buffer of 7-bit text and on every buffer without quotes, whatever bytes that holds: no pass over it, of the framing, of the composed headers or of any sequence of parameter requests, meets such a byte |
| `Ending.SafeLine` | Utilities/Scpi/Src/parser.c:182-235 | the same for SCPI_Parse, although headers are copied about in the line |
| `FramingCode.ParserState.DetectProgramMessageUnit` | Utilities/Scpi/Src/parser.c:1289-1333 | header, data, parameter count, terminator and length are those of the unit the specification cuts at this place |
| `FramingCode.ParserState.DetectBody` | Utilities/Scpi/Src/parser.c:1297-1308 | white space, header, white space and data |
| `FramingCode.ParserState.DetectTerminator` | Utilities/Scpi/Src/parser.c:1310-1311 | a line terminator is preferred to a semicolon |
| `FramingCode.ParseAllProgramData` | Utilities/Scpi/Src/parser.c:1239-1280 | all data or none: token and count of the whole list, or no token and -1, with the cursor where reading stopped |
| `FramingCode.ParseProgramData` | Utilities/Scpi/Src/parser.c:1200-1230 | token, cursor and returned length of one datum |
| `FramingLaws.UnitCut` | Utilities/Scpi/Src/parser.c:1289-1333 | a unit that fits in front of a cut behind a line terminator is the same unit when the text ends at the cut, wherever in memory the text lies |
| `FramingLaws.AllDataCut` | Utilities/Scpi/Src/parser.c:1239-1280 | so is a list of data |
| `FramingLaws.ProgramDataCut` | Utilities/Scpi/Src/parser.c:1200-1230 | a datum keeps its token when the text is cut behind it; only white space behind the cut is lost |
| `FramingLaws.DataInUnit` | Utilities/Scpi/Src/parser.c:1289-1333 | the data token of a unit ends inside the unit |
| `Params.TwoPassAgreement` | Utilities/Scpi/Src/parser.c:542-592 | two-pass agreement, exactly: reading all n counted parameters succeeds with the n tokens of the framing pass and leaves the cursor at the end, if and only if the white space that the framing pass did not count fits behind the last datum |
| `Params.NoSpaceFits` | Utilities/Scpi/Src/parser.c:1213-1222 | it does fit when no bare decimal but the last has white space behind it |
| `Params.ReadsAgree` | Utilities/Scpi/Src/parser.c:542-592 | the agreement from the k-th parameter on |
| `Params.ListCounted` | Utilities/Scpi/Src/parser.c:1239-1280 | the data length falls short of what was consumed by exactly the white space behind bare decimals |
| `Params.DatumCounted` | Utilities/Scpi/Src/parser.c:1200-1230 | the returned length of one datum falls short by exactly the white space behind a bare decimal, and by nothing otherwise |
| `Params.WindowHoldsLast` | Utilities/Scpi/Src/parser.c:208-210 | the last datum lies inside the window handed to the parameter reader exactly when that white space fits |
| `Params.DataAreParameters` | Utilities/Scpi/Src/parser.c:574-591 | every datum the parser recognizes is of a type SCPI_Parameter accepts, so it fails on unrecognizable text only |
| `Departures.LastDigitLost` | Utilities/Scpi/Src/parser.c:542-592 | the data 1 ,22: both parameters are counted, the second is read as 2, and nothing is reported |
| `Departures.LastParameterLost` | Utilities/Scpi/Src/parser.c:542-592 | the data 1 ,2: the second parameter is lost, and reading it reports invalid string data |
| `Handlers.RightNumberOfParameters` | Utilities/Scpi/Src/parser.c:121-154 | for a unit of any text with a valid header whose white space fits, if it has data: a handler that asks for j parameters is reported -108 if fewer than the counted ones, nothing if exactly those, and one -109 for each beyond them, a broken list of data counting as none |
| `Handlers.OptionalParameters` | Utilities/Scpi/Src/parser.c:542-592 | under the same condition a handler that asks for some parameters and then for any number of optional ones goes through without an error as long as it asks for all there are: a missing optional parameter is not reported |
| `Handlers.OptionalRead` | Utilities/Scpi/Src/parser.c:554-571 | one request: as long as data are left an optional parameter is read like any other; behind them it is silent while a mandatory one is reported as -109; data not introduced by a comma are reported as -103 |
| `Handlers.BrokenList` | Utilities/Scpi/Src/parser.c:1239-1333 | a list of data that cannot be read leaves the unit its header, and no data, exactly if reading stopped at a terminator or at the end of the text |
| `Departures.BrokenListRuns` | Utilities/Scpi/Src/parser.c:1239-1333 | the concrete case: A 1, executes A without data and reports nothing |
| `Handlers.ErrorsOfText` | Utilities/Scpi/Src/parser.c:542-592 | what a handler is reported depends on the bytes of the data token alone, not on the line around it |
| `Handlers.FailingHandler` | Utilities/Scpi/Src/parser.c:134-139 | return codes, for every handler and all data: a handler that fails has errors; if its actions report none it is reported as exactly -200, and if they report some as exactly these, with neither -200 nor -108 added |
| `Handlers.OtherHandler` | Utilities/Scpi/Src/parser.c:134-151 | a handler that succeeds is reported as its actions report; if these report nothing, as -108 exactly when data are left over |
| `Handlers.ToldErrors` | Utilities/Scpi/Src/parser.c:134-147 | a handler that asks for no parameters reports exactly the errors it pushes, in order |
| `Handlers.FailingLine` | Utilities/Scpi/Src/parser.c:182-235 | a line that executes a failing handler has errors, so that SCPI_Parse is FALSE on it |
| `Handlers.EventNumbers` | Utilities/Scpi/Src/parser.c:198-219 | an invalid character is reported as -101, an undefined header as -113 |
| `Handlers.AnswersAt` | Utilities/Scpi/Src/parser.c:121-154 | each command answers through its own handler, and one without a callback does not |
| `Handlers.AnswersJoin` | Utilities/Scpi/Src/parser.c:324-510 | the answers of a handler are its results in the order in which it writes them, whatever else it does between them |
| `Handlers.AnswerOfOne` | Utilities/Scpi/Src/parser.c:324-510 | one action answers with its result or not at all |
| `QuotedText.LexQuoted` | Utilities/Scpi/Src/lexer.c:633-702 | a text, quoted with its quotes doubled, is lexed to an end if and only if it is 7-bit, and then it is one string token, whatever follows except another such quote |
| `QuotedText.ReadQuoted` | Utilities/Scpi/Src/parser.c:1200-1230 | the datum parser, which tries other kinds first, finds the same token |
| `QuotedText.CopyOfQuoted` | Utilities/Scpi/Src/parser.c:1049-1064 | copying the token out yields a prefix of the original text |
| `QuotedText.CopyIsWhole` | Utilities/Scpi/Src/parser.c:1049-1064 | it is the whole text if and only if the text is empty or the doubled form of all but its last character leaves two places of the buffer free: a doubled quote costs two places |
| `QuotedText.DoubledQuoteCosts` | Utilities/Scpi/Src/parser.c:1049-1064 | the concrete case: the three characters a, quote, b are copied into a buffer of four bytes without the b |
| `QuotedText.CopyText` | Utilities/Scpi/Src/parser.c:1049-1064 | the loop copies that prefix, terminates it in every non-empty buffer, and writes nothing behind the buffer |
| `ArbitraryBlock.BlockRoundTrip` | Utilities/Scpi/Src/lexer.c:715-769 | a written block is read as one token that is exactly its payload, wherever it lies, and the cursor moves over exactly its bytes |
| `ArbitraryBlock.BlockResult` | Utilities/Scpi/Src/parser.c:495-510 | for every payload below 10^9 bytes, the empty one included, the two writes form a block that the lexer reads back |
| `ArbitraryBlock.BlockOfOne` | Utilities/Scpi/Src/parser.c:495-510 | the concrete block of the one byte A: #11A |
| `ArbitraryBlock.DigitsRead` | Utilities/Scpi/Src/lexer.c:727-737 | the digit loop of the lexer reads the number that the digits stand for |
| `ArbitraryBlock.BrokenBlock` | Utilities/Scpi/Src/lexer.c:715-769 | where a block breaks off: with the end of the text inside its header the cursor goes to that end; an indefinite length, a character in the length that is no digit, and a payload that is too short leave the cursor where it was; there is no token in either case |
| `IntPrinter.UInt32ToStr` | Utilities/Scpi/Src/utils.c:124-178 | for every word, base and sign flag: writes the numeral of the value in the base (ten if the base is unknown), with a sign in base ten only, cut to the length given, and terminates it if there is room |
| `IntPrinter.PutDigits` | Utilities/Scpi/Src/utils.c:167-172 | the digit loop writes the digits from the leading place down |
| `IntPrinter.FirstPlace` | Utilities/Scpi/Src/utils.c:134-151 | in each base the loop starts from a power that no word has a place above |
| `IntPrinter.LeadingPlace` | Utilities/Scpi/Src/utils.c:162-165 | finds the largest power of the base that does not exceed the value |
| `IntPrinter.FixedValue` | Utilities/Scpi/Src/utils.c:167-172 | the digits by place value read back as the number |
| `IntPrinter.FixedIsDigits` | Utilities/Scpi/Src/utils.c:162-172 | from that place on they are the digits that repeated division yields |
| `IntPrinter.PrintersAgree` | Utilities/Scpi/Src/snprintf.c:415-497 | for every signed 32-bit value and each base and sign flag that both know, what UInt32ToStrBaseSign writes is what fmtint emits without flags: two algorithms that work from opposite ends |
| `IntPrinter.NondecimalRoundTrip` | Utilities/Scpi/Src/parser.c:337-370 | a non-decimal result is lexed as one number of its base whose digits stand for the value printed, unless a digit follows it |
| `IntPrinter.NondecimalExample` | Utilities/Scpi/Src/parser.c:337-370 | the concrete value 250: #HFA, #Q372 and #B11111010 |
| `Numerals.NumeralUnique` | Utilities/Scpi/Src/utils.c:124-178 | a number has one numeral without superfluous zeros |
| `Numerals.NumeralLength` | Utilities/Scpi/Src/parser.c:502-503 | a numeral of a number below base^k has at most k digits |
| `Numerals.DigitsReadBack` | Utilities/Scpi/Src/snprintf.c:445-451 | repeated division yields digits that stand for the number |
| `StatusModel.StatusByteIsTrue` | Utilities/Scpi/Src/ieee488.c:100-164 | from power-on, every run of register writes, error pushes, pops and clears, *CLS, *OPC and *ESR? keeps each summary bit equal to what it summarizes, bit 2 to a non-empty error queue, bit 6 to the enabled reasons, and has sent exactly one request for each evaluation that left bit 6 set and changed the status byte |
| `StatusModel.RunInv` | Utilities/Scpi/Src/ieee488.c:100-205 | the invariant holds from any state that satisfies it |
| `StatusModel.CascadeIsOneWrite` | Utilities/Scpi/Src/ieee488.c:100-164 | the recursion stores the value, recomputes the one summary bit fed by the register, evaluates the status byte once, and changes nothing else |
| `StatusModel.RequestExact` | Utilities/Scpi/Src/ieee488.c:107-163 | one evaluation per write to a valid register, and a request exactly when the new status byte has bit 6 and differs from the old |
| `StatusModel.WriteInv` | Utilities/Scpi/Src/ieee488.c:100-164 | a write to any register but STB keeps the invariant |
| `StatusModel.PushInv` | Utilities/Scpi/Src/error.c:179-196 | so does an error push |
| `StatusModel.PopInv` | Utilities/Scpi/Src/error.c:90-123 | so do pop and clear |
| `StatusModel.ClsInv` | Utilities/Scpi/Src/ieee488.c:188-205 | so does *CLS |
| `StatusModel.ClsClears` | Utilities/Scpi/Src/ieee488.c:188-205 | and in every such state it leaves the event status, operation and questionable registers 0, the queue empty and the status byte 0, and all enable registers as they were |
| `StatusModel.EventCommands` | Utilities/Scpi/Src/ieee488.c:236-273 | *ESR? leaves its register 0 and *OPC sets bit 0 of it; nothing else changes but the status byte |
| `StatusModel.QueueOperations` | Utilities/Scpi/Src/error.c:90-196 | the error pushed is the newest of the queue, in which the oldest makes room for it, and is notified; popping drops the oldest, clearing all |
| `StatusModel.StatusBits` | Utilities/Scpi/Src/ieee488.c:60-163 | the status byte by bit numbers: 5, 7 and 3 for the masked event status, operation and questionable registers, 2 for queued errors, 6 for any of the enabled bits |
| `StatusModel.EmptyNoticeExact` | Utilities/Scpi/Src/error.c:63-71 | the application is told that there is no error exactly when an operation empties a filled queue, with a request first if bit 6 is still set |
| `StatusModel.ClassesExact` | Utilities/Scpi/Src/error.c:160-188 | the scan of the class table raises exactly one event bit for -899..-100 and none for any other number |
| `StatusModel.ErrorBits` | Utilities/Scpi/Src/error.c:160-188 | the bits by number: a command error sets bit 5 of the event status register, an execution error bit 4, a device error bit 3, a query error bit 2, power on bit 7, user request bit 6, request control bit 1, operation complete bit 0 |
| `StatusModel.DocumentedBitRaised` | Utilities/Scpi/Src/error.c:164-188 | a pushed error raises the event bit its table comment documents if and only if it is not one of the positive device errors |
| `StatusModel.DeviceErrorUnmarked` | Utilities/Scpi/Src/error.c:168-186 | the concrete exception: device error 1 raises no event bit |
| `Device.Device.constructor` | Utilities/Scpi/Src/error.c:48-57 | all registers zero, the queue empty |
| `Device.Device.RegSet` | Utilities/Scpi/Src/ieee488.c:100-164 | the imperative recursion, which stores the register before and after the cascade, has the effect of the specification on registers, requests and evaluations |
| `Device.Device.RegSetStb` | Utilities/Scpi/Src/ieee488.c:107-163 | the status byte case, with the request condition |
| `Device.Device.RegCascade` | Utilities/Scpi/Src/ieee488.c:116-156 | the other cases of the switch |
| `Device.Device.RegUpdateSTB` | Utilities/Scpi/Src/ieee488.c:60-66 | sets or clears one summary bit by the masked register |
| `Device.Device.RegUpdate` | Utilities/Scpi/Src/ieee488.c:49-51 | re-evaluates a register with its own value |
| `Device.Device.RegSetBits` | Utilities/Scpi/Src/ieee488.c:171-173 | a write of the old value with bits added |
| `Device.Device.RegClearBits` | Utilities/Scpi/Src/ieee488.c:180-182 | a write of the old value with bits removed |
| `Device.Device.ErrorPush` | Utilities/Scpi/Src/error.c:179-196 | queues the error, raises its event bit, sets bit 2, notifies and sets cmd_error; logs exactly this error |
| `Device.Device.MarkError` | Utilities/Scpi/Src/error.c:185-189 | the loop over the class table |
| `Device.Device.ErrorPop` | Utilities/Scpi/Src/error.c:107-123 | returns the oldest error, or 0, and keeps bit 2 true |
| `Device.Device.ErrorClear` | Utilities/Scpi/Src/error.c:90-100 | empties the queue and reports it once |
| `Device.Device.ErrorCount` | Utilities/Scpi/Src/error.c:130-142 | the length of the queue |
| `Device.Device.ErrorEmit` | Utilities/Scpi/Src/error.c:78-84 | sets bit 2 and notifies |
| `Device.Device.ErrorEmitEmpty` | Utilities/Scpi/Src/error.c:63-71 | clears bit 2 and notifies if the queue is empty and bit 2 was set |
| `Device.Device.CoreCls` | Utilities/Scpi/Src/ieee488.c:199-205 | clears the event status register, the error queue, and the two other event registers, in this order |
| `Device.Device.CoreOpc` | Utilities/Scpi/Src/ieee488.c:270-273 | sets the operation complete bit |
| `Device.Device.CoreEsrQ` | Utilities/Scpi/Src/ieee488.c:236-240 | returns the event register and clears it |
| `Device.Device.Perform` | Utilities/Scpi/Src/ieee488.c:100-240 | any single operation has its specified effect and pushes no error unless it is a push |
| `Fifo.RunKeepsOrder` | Utilities/Scpi/Src/fifo.c:8-74 | first in, first out over every run: what left followed by what is queued is what entered, in order |
| `Fifo.Drive` | Utilities/Scpi/Src/fifo.c:8-74 | a caller driving the ring with any operations sees exactly a bounded queue that drops its oldest element, across every wrap of the indices; a store behind the declared cells is noted exactly when the run makes one |
| `Fifo.OutsideExactly` | Utilities/Scpi/Inc/fifo_private.h:50-57 | every store of a run stays inside the declared cells if and only if no more values than there are cells are added without a clear between them, however many are removed |
| `Fifo.SeventeenthOutside` | Utilities/Scpi/Inc/fifo_private.h:50-57 | the concrete case: of values added and removed one at a time the seventeenth is stored behind the sixteen cells |
| `Fifo.Ring.constructor` | Utilities/Scpi/Src/fifo.c:8-12 | an empty ring, the next store going to the first cell |
| `Fifo.Ring.Add` | Utilities/Scpi/Src/fifo.c:29-39 | appends, dropping the oldest element of a full queue, and says where it stores |
| `Fifo.Ring.Remove` | Utilities/Scpi/Src/fifo.c:47-60 | returns the oldest element and drops it, or reports an empty queue |
| `Fifo.Ring.Clear` | Utilities/Scpi/Src/fifo.c:18-21 | empties the ring |
| `Fifo.Ring.Count` | Utilities/Scpi/Src/fifo.c:68-74 | the number of queued elements, also when the write index has wrapped |
| `Interpreter.Interpreter.Parse` | Utilities/Scpi/Src/parser.c:182-235 | result flag exactness: FALSE exactly when errors were pushed, for every line and every handler; the errors pushed are those that the events of the line call for, in order; the units executed are those of the line and the bytes written are its output; nothing behind the line is touched |
| `Interpreter.Interpreter.ParseUnit` | Utilities/Scpi/Src/parser.c:195-229 | one round of its loop: the unit cut here is executed, and its share of events, errors and output is added |
| `Interpreter.Interpreter.ExecuteUnit` | Utilities/Scpi/Src/parser.c:198-221 | an invalid character (-101), an undefined header (-113), a command, whose errors are those of its handler, or nothing |
| `Interpreter.Interpreter.ExecuteHeader` | Utilities/Scpi/Src/parser.c:205-219 | the composed header is looked up: a match runs on the data of the unit, anything else pushes -113 |
| `Interpreter.Interpreter.ComposeCompoundCommand` | Utilities/Scpi/Src/utils.c:720-754 | the copy within the line has the effect of the specification and leaves everything behind the line alone |
| `Interpreter.Interpreter.FindColon` | Utilities/Scpi/Src/utils.c:742-746 | the loop finds the end of the path: the last colon of the previous header, or nothing |
| `Interpreter.Interpreter.CopyWithin` | Utilities/Scpi/Src/utils.c:752 | memmove over overlapping ranges |
| `Interpreter.Interpreter.ProcessCommand` | Utilities/Scpi/Src/parser.c:121-154 | the errors of one command: what the handler pushes, -200 if it fails without any, -108 if it leaves data unread without any; TRUE exactly when there are none; writes the separator and the results |
| `Interpreter.Interpreter.CallCommand` | Utilities/Scpi/Src/parser.c:134-146 | the callback and its return code |
| `Interpreter.Interpreter.Callback` | Utilities/Scpi/Src/parser.c:137-147 | any sequence of handler actions: output joined as specified, the errors of its parameter requests and reports pushed in order, cmd_error on record for any of them |
| `Interpreter.Interpreter.Act` | Utilities/Scpi/Src/parser.c:137-147 | one action of a handler: a result, a report, a register operation, or a parameter request with the error it pushes and the cursor it leaves |
| `Interpreter.Interpreter.Parameter` | Utilities/Scpi/Src/parser.c:542-592 | token, error and cursor of one parameter request: missing (-109), wrong separator (-103), unrecognizable (-151), or a token |
| `Interpreter.Interpreter.WriteResult` | Utilities/Scpi/Src/parser.c:324-330 | the delimiter rule for one result; a block is written without one (lines 495-510) |
| `Interpreter.Interpreter.WriteSemicolon` | Utilities/Scpi/Src/parser.c:109-115 | the separator between responses |
| `Interpreter.Interpreter.WriteNewLine` | Utilities/Scpi/Src/parser.c:90-102 | the line ending, if the last command answered |
| `Interpreter.Interpreter.Input` | Utilities/Scpi/Src/parser.c:272-314 | the lines drained from old text and new data are executed in order, with the events, commands, bytes and errors of exactly those lines, and the rest is kept; an overrun drops the buffer and reports it; an empty call executes the buffer; the result is FALSE exactly when the last line has errors, or on overrun |
| `Interpreter.Interpreter.DrainLines` | Utilities/Scpi/Src/parser.c:297-310 | the loop, whose scan restarts after every line, with what it executes, writes, reports and returns |
| `Interpreter.Interpreter.DrainOne` | Utilities/Scpi/Src/parser.c:302-305 | one line behind those done before |
| `Interpreter.Interpreter.ExecuteLine` | Utilities/Scpi/Src/parser.c:302-305 | the line is executed and removed from the front of the buffer, the rest unchanged although headers were rewritten in front of it |
| `Interpreter.Interpreter.Append` | Utilities/Scpi/Src/parser.c:292-294 | memcpy and terminator |
| `Interpreter.Interpreter.ShiftDown` | Utilities/Scpi/Src/parser.c:303-304 | memmove of the rest to the front |
| `Interpreter.Interpreter.Feed` | Utilities/Scpi/Src/parser.c:272-314 | any sequence of calls without overrun executes, writes and reports what the lines that chunking independence speaks of do |
| `Interpreter.FeedBoth` | Utilities/Scpi/Src/parser.c:272-314 | chunking independence of the interpreter: two of them, fed one stream of whole lines that is 7-bit or without quotes in two ways, execute the same units, write the same bytes, push the same errors and keep the same rest |
| `Handlers.LastDecides` | Utilities/Scpi/Src/parser.c:297-310 | the result of SCPI_Input is that of the last line executed |
| `Handlers.VerdictMisses` | Utilities/Scpi/Src/parser.c:297-310 | it is TRUE although errors were pushed if and only if the last line has none and a line before it has |
| `Departures.GoodLineHidesError` | Utilities/Scpi/Src/parser.c:297-310 | the concrete case: an undefined header in the first of two lines, the second being good |
| `Handlers.AfterMore` | Utilities/Scpi/Src/parser.c:297-310 | executing some lines and then some more is executing all of them: events, commands, bytes and errors add up |
| `Interpreter.Interpreter.Accumulate` | Utilities/Scpi/Src/parser.c:182-235 | what a unit does plus what the rest of the line will do is what the line does: commands, events, errors and output |
| `Response.ResponseWellFormed` | Utilities/Scpi/Src/parser.c:77-115 | the bytes written for a line are its response message if and only if the last command answers (or none does) and no block comes second in its command |
| `Departures.LateBlockRunsOn` | Utilities/Scpi/Src/parser.c:495-510 | the concrete case of the second condition: a number and a block are written as 1#11A |
| `Response.EveryCommandAnswers` | Utilities/Scpi/Src/parser.c:77-115 | in particular when every command answers through the delimiter-writing functions: results joined by commas, commands by semicolons, one line ending |
| `Response.LineLengths` | Utilities/Scpi/Src/parser.c:77-115 | what is written falls short of the message by one byte for each late block and one for a silent last command |
| `Response.LineJoined` | Utilities/Scpi/Src/parser.c:77-154 | the positive half for the rest of a line behind any count of earlier results |
| `Response.SilentCommandDangles` | Utilities/Scpi/Src/parser.c:90-115 | the concrete failure: a query followed by a silent command writes 1; without a line ending |
| `LexerLaws.HeaderCut` | Utilities/Scpi/Src/lexer.c:405-441 | a header keeps its token when the text is moved in memory or cut behind it |
| `LexerLaws.DecimalCut` | Utilities/Scpi/Src/lexer.c:508-530 | so does a decimal number, whose exponent may have been tried and given up behind the cut |
| `LexerLaws.SuffixCut` | Utilities/Scpi/Src/lexer.c:533-560 | so does a suffix |
| `LexerLaws.StringCut` | Utilities/Scpi/Src/lexer.c:663-702 | so does a string if the cut is the end of the text, lies behind a line terminator, or behind the string |
| `LexerLaws.BlockCut` | Utilities/Scpi/Src/lexer.c:715-769 | so does a block under the same condition, and so does the failure to read one |
| `LexerLaws.ExpressionCut` | Utilities/Scpi/Src/lexer.c:801-825 | so does an expression |
| `LexerLaws.NondecimalCut` | Utilities/Scpi/Src/lexer.c:596-626 | so does a non-decimal number |
| `LexerLaws.SpanIs` | Utilities/Scpi/Src/lexer.c:170-178 | a run of characters is determined by its members and the character that stops it |
| `LexerCode.LexState.SkipWs` | Utilities/Scpi/Src/lexer.c:170-178 | moves over the longest run of blanks and tabs and counts it |
| `LexerCode.LexState.SkipNumbers` | Utilities/Scpi/Src/lexer.c:205-212 | the same for digits |
| `LexerCode.LexState.SkipAlpha` | Utilities/Scpi/Src/lexer.c:233-240 | the same for letters |
| `LexerCode.LexState.SkipHexNum` | Utilities/Scpi/Src/lexer.c:563-570 | the same for hexadecimal digits |
| `LexerCode.LexState.SkipOctNum` | Utilities/Scpi/Src/lexer.c:572-579 | the same for octal digits |
| `LexerCode.LexState.SkipBinNum` | Utilities/Scpi/Src/lexer.c:581-588 | the same for binary digits |
| `LexerCode.LexState.SkipProgramMnemonic` | Utilities/Scpi/Src/lexer.c:306-320 | the length of a mnemonic, negative if it reaches the end |
| `LexerCode.LexState.SkipCommonProgramHeader` | Utilities/Scpi/Src/lexer.c:353-368 | one of the three results and the cursor for '*' headers |
| `LexerCode.LexState.SkipCompoundProgramHeader` | Utilities/Scpi/Src/lexer.c:375-397 | the same for colon-separated headers |
| `LexerCode.LexState.ProgramHeader` | Utilities/Scpi/Src/lexer.c:405-441 | token kind, span and cursor of a header, queries and incomplete headers told apart |
| `LexerCode.LexState.WhiteSpace` | Utilities/Scpi/Src/lexer.c:330-344 | a token for the blanks skipped |
| `LexerCode.LexState.CharacterProgramData` | Utilities/Scpi/Src/lexer.c:451-469 | mnemonic data |
| `LexerCode.LexState.SkipMantisa` | Utilities/Scpi/Src/lexer.c:472-484 | digits counted on both sides of the point |
| `LexerCode.LexState.SkipExponent` | Utilities/Scpi/Src/lexer.c:486-500 | digits of an exponent, with white space and sign |
| `LexerCode.LexState.DecimalNumericProgramData` | Utilities/Scpi/Src/lexer.c:508-530 | the number, with the roll-back over white space that no exponent follows |
| `LexerCode.LexState.SuffixProgramData` | Utilities/Scpi/Src/lexer.c:533-560 | the suffix loop over unit, sign and digit |
| `LexerCode.LexState.NondecimalNumericData` | Utilities/Scpi/Src/lexer.c:596-626 | the token without its two prefix characters, and the distance moved |
| `LexerCode.LexState.SkipQuoteProgramData` | Utilities/Scpi/Src/lexer.c:633-647 | stops at the first quote that is not doubled |
| `LexerCode.LexState.StringProgramData` | Utilities/Scpi/Src/lexer.c:663-702 | a string in either quote, or the cursor put back |
| `LexerCode.LexState.ArbitraryBlockProgramData` | Utilities/Scpi/Src/lexer.c:715-769 | the block token, or nothing; a header cut off by the end moves the cursor there and still returns 0 |
| `LexerCode.LexState.ProgramExpression` | Utilities/Scpi/Src/lexer.c:801-825 | parenthesized expression, or the cursor put back |
| `LexerCode.LexState.SpecificChar` | Utilities/Scpi/Src/lexer.c:833-905 | a one-character token or none: comma, semicolon, colon, any given character |
| `LexerCode.LexState.NewLineToken` | Utilities/Scpi/Src/lexer.c:913-930 | CR, LF or CR LF |
| `Printf.Dopr` | Utilities/Scpi/Src/snprintf.c:114-375 | truncation refines the unbounded printer: for every format and every maxlen the result counts the unlimited output, and the buffer holds its first characters, a terminator, and its old contents behind that |
| `Printf.Scan` | Utilities/Scpi/Src/snprintf.c:135-366 | the state machine prints what the specification renders, however many states a conversion passes through |
| `Printf.Out.Outch` | Utilities/Scpi/Src/snprintf.c:720-726 | one character more is printed, and stored if it fits |
| `Printf.Out.FmtIntTo` | Utilities/Scpi/Src/snprintf.c:415-497 | the padding loops and the digit buffer print the number as specified |
| `Printf.Out.FmtStrTo` | Utilities/Scpi/Src/snprintf.c:377-411 | the three loops print the padded and cut string |
| `Printf.Out.Convert` | Utilities/Scpi/Src/snprintf.c:231-358 | one conversion and the number of arguments it takes |
| `Printf.Out.Terminate` | Utilities/Scpi/Src/snprintf.c:367-372 | where the terminator goes |
| `Printf.StoreDigits` | Utilities/Scpi/Src/snprintf.c:445-451 | the digit loop stores at most eleven digits, so the bound of twenty is never met |
| `Printf.Pads` | Utilities/Scpi/Src/snprintf.c:454-463 | pad counts with their signs |
| `Formats.FormatRoundTrip` | Utilities/Scpi/Src/snprintf.c:135-366 | format strings from their parts: literal text and conversions of flags, width, precision, length and letter, width and precision also from arguments; dopr prints the literal text and for each conversion what its letter means in base, sign, case and layout for the argument that is its turn |
| `Formats.IntLayout` | Utilities/Scpi/Src/snprintf.c:415-497 | the layout of a number: spaces in front, the sign that value and flags call for, zeros, digits, spaces behind; spaces only without the zero flag, behind only with the minus flag, at least as many digits as the precision |
| `Formats.StringLayout` | Utilities/Scpi/Src/snprintf.c:312-411 | a string stands on the right of its field, with the minus flag on the left, cut to the precision or to the field if that is wider |
| `Formats.StringPrecision` | Utilities/Scpi/Src/snprintf.c:312-320 | so the precision cuts the string if and only if the field is not wider or the string is short enough anyway |
| `Formats.PrecisionIgnored` | Utilities/Scpi/Src/snprintf.c:312-320 | the concrete case: %5.2s prints abcdef as abcde |
| `PrintfSpec.NumberReadsBack` | Utilities/Scpi/Src/snprintf.c:415-497 | for every 32-bit value, sign flag and base: spaces, a sign that is right, and digits that read back as the absolute value (the word for unsigned conversions) |
| `PrintfSpec.WidthExact` | Utilities/Scpi/Src/snprintf.c:454-463 | the number of characters is max(min, sign + max(precision, digits)) if and only if the '0' flag does not meet a precision beyond the digits in a still wider field |
| `Departures.ZeroFlagNarrows` | Utilities/Scpi/Src/snprintf.c:454-463 | the concrete case: %06.3d prints 5 as 0005 |
| `PrintfSpec.PlainInteger` | Utilities/Scpi/Src/snprintf.c:415-497 | without flags, width and precision: a minus sign if needed, and the digits |
| `PrintfSpec.LiteralText` | Utilities/Scpi/Src/snprintf.c:140-146 | a format without conversions prints itself |
| `ChannelList.ChannelListRoundTrip` | Utilities/Scpi/Src/expression.c:191-313 | a printed list of entries, of any length and dimensions, is lexed as one expression and read as exactly those entries |
| `ChannelCode.PrintedListIndexed` | Utilities/Scpi/Src/expression.c:264-313 | on a printed list, index k yields entry k for k < n and NO_MORE for every k >= n, so an index loop meets each entry once |
| `ChannelCode.ChannelListEntry` | Utilities/Scpi/Src/expression.c:264-313 | for every text, well formed or not, every index and every NULL argument: the k-th look-up is the k-th entry of one pass over the whole list, with its values up to the given length; behind the last entry it reports how that pass ended, a negative index stores nothing, and one error is pushed exactly when it returns an error; it stores outside its arrays exactly when the values read and announced outnumber their cells |
| `ChannelCode.FindEntry` | Utilities/Scpi/Src/expression.c:274-312 | the same behind its NULL checks |
| `ChannelCode.Locate` | Utilities/Scpi/Src/expression.c:290-301 | the loop that re-reads the list from the start |
| `ChannelCode.ChannelRange` | Utilities/Scpi/Src/expression.c:225-251 | one entry, with both channels of a range of equal dimensions |
| `ChannelCode.ChannelSpec` | Utilities/Scpi/Src/expression.c:191-213 | one channel: all its numbers read, the first of them stored, the rest of the array unchanged |
| `ChannelList.NumberHeld` | Utilities/Scpi/Src/utils.c:318-322 | a printed 32-bit integer in front of a separator is one decimal token and strtol reads it back |
| `ChannelList.ListHeld` | Utilities/Scpi/Src/expression.c:290-301 | a list between '@' and ')' is read to its end |
| `ChannelList.EntryHeld` | Utilities/Scpi/Src/expression.c:225-251 | an entry in front of a separator is read back |
| `ChannelList.SpecHeld` | Utilities/Scpi/Src/expression.c:191-213 | a channel of any dimensions is read back |
| `ChannelList.ForeignCharacter` | Utilities/Scpi/Src/expression.c:264-313 | behind the entries of a list a character that is neither a separator nor part of a number ends the entries, and looking further is an error |
| `ChannelList.CommaLast` | Utilities/Scpi/Src/expression.c:264-313 | a comma behind the last entry is accepted; if something that is not a number follows it, looking further is an error |
| `ChannelList.DanglingMark` | Utilities/Scpi/Src/expression.c:191-213 | an exclamation mark without a number behind it is an error |
| `ChannelList.UnequalRange` | Utilities/Scpi/Src/expression.c:225-251 | so is a range between channels of different dimensions |
| `ChannelList.OutOfRange` | Utilities/Scpi/Src/utils.c:318-322 | a number that no 32-bit word holds is read as the nearest one that does |
| `Walk.TestChanlst` | Src/Src/scpi-def.c:253-350 | unless an entry has more than two dimensions, the cells of all entries are recorded in order with a zero cell behind them, as far as the array has room; every access stays in bounds if and only if the array has more cells than the list names and no channel looked up has more than two dimensions |
| `Walk.TwelveCells` | Src/Src/scpi-def.c:253-350 | the concrete case of the first condition: the 12 cells of (@1!1:2!6) fill the 12 cells of the array, and the zero cell goes behind it |
| `Walk.ThreeDimensions` | Src/Src/scpi-def.c:262-276 | the concrete case of the second: a channel with three dimensions is stored into arrays of two values that are announced as four |
| `Walk.WideEntry` | Utilities/Scpi/Src/expression.c:264-313 | an entry with more than two dimensions overruns those arrays |
| `Walk.RecordAll` | Src/Src/scpi-def.c:273-347 | the index loop over the entries |
| `Walk.RecordEntry` | Src/Src/scpi-def.c:275-342 | the branches for one entry |
| `Walk.Recording.Rows` | Src/Src/scpi-def.c:300-341 | the flag-controlled row loop terminates, with unsigned counters that wrap through zero, and records the rows of the range in order |
| `Walk.Recording.OneRow` | Src/Src/scpi-def.c:312-335 | the body of the row loop, with the column direction kept from earlier entries when both ends agree |
| `Walk.Recording.Columns` | Src/Src/scpi-def.c:317-327 | the flag-controlled column loop terminates and records each column once |
| `Walk.RangeIsBox` | Src/Src/scpi-def.c:300-341 | a range records every cell between its corners exactly once and no other cell: the product of the distances plus one |
| `Walk.RangeOrder` | Src/Src/scpi-def.c:300-341 | in row-major order from the first corner to the last, in either direction of each coordinate |
| `Walk.RowMajor` | Src/Src/scpi-def.c:300-341 | cell j of row i stands at place i * columns + j |
| `Walk.SingleIsBox` | Src/Src/scpi-def.c:284-296 | a single channel in one or two dimensions names the one cell of its box, row before column; a range in more dimensions names none |
| `Walk.SingleChannel` | Src/Src/scpi-def.c:284-296 | the concrete list (@1!2): row 1, column 2 |
| `Walk.CellsJoin` | Src/Src/scpi-def.c:273-347 | the cells of a list are those of its entries, in their order |
| `Crc.LookupIsSerialByte` | Src/Src/crc.c:16-25 | for every state and byte the table look-up does the work of eight clocks of the serial register of ITU-T V.41 |
| `Crc.CrcCcitt.InitTable` | Src/Src/crc.c:37-56 | every table cell holds a zero register clocked with its index |
| `Crc.CrcCcitt.Update` | Src/Src/crc.c:16-25 | the byte-wise update is eight serial clocks |
| `Crc.CrcCcitt.Message` | Src/Src/crc.c:16-25 | hence a whole message gives the check word of the serial register |
| `Crc.BurstDetected` | Src/Src/crc.c:16-25 | two different messages of equal length that differ only inside two adjacent bytes never have the same check word |
| `Crc.KnownCheckWord` | Src/Src/crc.c:16-25 | the check word of the digits 1 to 9 that is published for this generator: 31C3 from a zero register, 29B1 from a register of ones |
| `Crc.ShiftNInjective` | Src/Src/crc.c:37-56 | no number of clocks loses information |
| `Crc.ShiftNLinear` | Src/Src/crc.c:37-56 | clocking is linear |
| `Crc.FeedIsShift` | Src/Src/crc.c:37-56 | feeding data bits is clocking the register with the data folded in |

## Left out

- Chunking.SameStreamSameUnits: streams of whole lines, because what is cut of a string or block that holds a line terminator depends on whether its end has arrived; and non-empty calls, because an empty one executes the buffer.
- StuckLines.LineIsStuck: lines, and in DrainStopsAtEmptyUnit buffers, that are whole, for the same reason.
- Interpreter.Interpreter.Feed: calls without overrun; what an overrun does is stated by Input.
- Interpreter.Interpreter.Act: a handler writes responses, asks for parameters, reports errors and works on the status registers through the library; it does not write the status byte itself or touch the parser, and which actions it takes depends on the number of the command only.
- ArbitraryBlock.BlockResult: payloads below 10^9 bytes; a longer length has ten digits, which the header field of the standard cannot express.
- Fifo.Ring.Add: a store behind the declared cells is noted and its value kept; what it would overwrite is not modelled.
- Printf.Out.Convert: the text of a floating-point conversion is a parameter, printed through the same bounded output; %n takes an argument but its store is not modelled.
- Formats.FormatRoundTrip: formats without floating-point conversions, %n and %w.
- Messages.MessageRoundTrip: data are separated by bare commas, white space around them being the subject of Params.TwoPassAgreement; and a number does not have a unit E with a power, which reads as a power of ten.
- Printf.Dopr: a format that ends inside %w reads as if another terminator followed; width and precision do not overflow.
- Walk.TestChanlst: values and cells beyond the arrays are noted and not stored; what such a store would overwrite is not modelled.
- The command table and matchCommand: any predicate on the composed header.
- NULL contexts, NULL parameters of other functions and missing interface callbacks; flushing; the control channel that carries a service request is a log.
- Floating point: fmtfp, the conversions of parameters to float and double, and the unit multipliers of units.c.
- 64-bit results, non-decimal integer parameters, choices, booleans and character data: thin wrappers around what is modelled.
- SCPI_ResultText, which does not double quotes: its output is one more result text here.
- SCPI_ExprNumericListEntry, which repeats the index loop of channel lists with one number per entry.
- Error message texts, *IDN?, *TST?, *RST and the other queries that only return a register or a constant.
- The drivers, the network and USB code, the console and flash: everything in `Libraries/` and the rest of `Src/Src`.
