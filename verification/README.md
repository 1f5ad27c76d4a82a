# emailchecker in Dafny

This project models the core of **emailchecker**, a service that rates an email
address as low, medium or high risk of being fake. The model covers:

- **the checker** (`emailchecker.go`, `config.go`). It splits off the domain and
  runs five sub-checks against it. The sub-checks are: a disposable-domain list,
  DNS validation with Cloudflare DNS-over-HTTPS, a well-known (Tranco top) list,
  an educational-domain list, and a heuristic pattern check of the address. The
  assembled result is then handed to the analyzer.
- **the pattern checker** (`emailpattern/emailpattern.go`):
  - too-short local parts, long digit runs and too many special runes;
  - keyboard walks, case switching and letter-digit switching;
  - the "looks like a human name" rules that override the randomness verdict.
- **the analyzer** (`analyzer/analyzer.go`). It adds up the sub-check findings
  into a score clamped to [0, 1] and a level, with the reasons in order.
- **DNS** (`dns/cloudflare.go`, `dns/parked.go`, `dns/dns.go`). This covers the
  five DoH lookups, MX parsing, and the SPF and DMARC policy records. It also
  covers the parked-name and parked-network lists, and the cached,
  de-duplicated resolver in front of them.
- **the SQLite repository** (`sqlite/sqlite.go`). It holds the three domain
  tables, the DNS cache and the refresh timestamps. A table is replaced in one
  transaction with duplicates dropped.
- **the list refreshers and their downloads** (`disposable/`, `wellknown/`,
  `edu/`). They are modelled as a GitHub text list, the Tranco list-ID and CSV
  download, and a JSON university list.
- **the command-line driver** (`cmd/email-checker/main.go`). It selects the
  input and checks the addresses sequentially or concurrently. The sequential
  path stops at the first failure. The concurrent path runs every check and
  then reports the first failure in completion order.
- **the HTTP layer** (`pkg/httpext`, `pkg/httpmiddleware`, `pkg/errorsext`,
  `api/handlers`):
  - the response capture, the status stored in the request context and the
    server options;
  - the request/response logging middleware;
  - the JSON responder with its panic recovery;
  - the API errors and the check, health and host-allow-list handlers.
- **the browser widget** (`static/src/script.js`). This covers the check
  workflow state, copying the JSON to the clipboard, the risk emoji and border
  class, the quick summary line and the loading animation.

Everything outside the program's own logic is a parameter of the functions that
use it:

| Parameter | Stands for |
|---|---|
| `EmailPattern.Oracles` | Unicode category tables, `unicode.ToLower` and the entropy threshold |
| `Parked.EtldPlusOne` | the public-suffix list |
| `ParseIP`, `ParseCIDR` | IP and CIDR parsing |
| `Client` | the HTTP client |
| `DecodeItems` | JSON decoding |
| `Codec` | the cache encoding |
| `Fetch` | the DNS fetch |
| `System` | `net.SplitHostPort` and `os.Stat` |
| `Encoder` | the JSON encoder |
| fault arguments | SQL failures |
| an integer `now` | the clock |

Module by module:

- `Model` holds the shared records of `model.go`.
- `Text` holds the string library the Go code leans on: `strings.Fields`,
  `TrimSpace`, `Split`, `Atoi`, `Itoa`, line scanning, UTF-8 widths and ASCII
  case folding.
- The response writer of `pkg/httpext` is modelled as a trace of events
  (`HttpExt.Event`) folded over a `Capture` record.
- Go strings are sequences of runes. A Go `len(s)` on a string, and the byte
  offsets that `range` yields, are modelled as UTF-8 widths (`Text.ByteLen`).
- Scores are integers in hundredths (`0.15` is `15`).
- The pattern checker's `MaxSpecialCharRatio` is an exact fraction
  (`EmailPattern.Ratio`); the default `0.3` is `3/10`.

Where the prose description of the system and the code disagree, the model
follows the code:

- `ValidationErrors.Error` prints the entries Go-style, inside brackets and
  separated by spaces (`ApiErrors.ListText`).
- A refresh timestamp that does not parse makes `needsRefresh` report an error.
  Every caller then aborts, so such a table is never refreshed again
  (`Refresh.CorruptStampBlocksRefresh`).
- `WriteHeader(0)` records status 0 in the capture. It is not replaced by 200.
  The capture then forwards 0 to net/http, whose own `WriteHeader` panics on a
  code below 100, so this is not a normal way for a request to end.
- The server serialises the check result with capitalised keys (`Email`,
  `Disposable`, ...). The widget reads lower-case ones (`disposable`, `dns`,
  `has_mx`). The widget is modelled on the body it expects, not linked to the
  server's encoder.
- `containsSequence` compares byte windows, and the model compares rune windows.
  Every keyboard row is ASCII, so a window matches in one exactly when it
  matches in the other.

## Model

| member | source | states |
|---|---|---|
| Checker.ValidateSpec | config.go:14-44 | A nil config is refused with "config cannot be nil". A config validates exactly when every service is present, and the error names the first one missing. |
| Checker.New | emailchecker.go:20-35 | A checker is built exactly when the config validates, and each of its six services is the one configured for that role; otherwise the validation error is returned. |
| Checker.DisposableTimeout | emailchecker.go:43-45 | The disposable lookup gets the caller's deadline, or 200 ms when none is given. |
| Checker.Finished | emailchecker.go:98-108 | A sub-check that ran is marked checked and carries either the service's error (with a zero value) or its value. |
| Checker.FinishedExclusive | emailchecker.go:98-108 | A finished sub-check has an error exactly when the service failed, and then its value is the zero value. |
| Checker.FlagAllMX | emailchecker.go:123-130 | Every MX record is flagged in place, one for one and in order. |
| Checker.FlagMXSpec | emailchecker.go:123-130 | Flagging keeps the exchange and priority. It sets `disposable` from the disposable lookup of the exchange, and leaves it unchanged when that lookup fails. |
| Checker.PerformDisposable | emailchecker.go:82-110 | The disposable sub-check writes its own field and nothing else, and writes nothing when skipped. |
| Checker.PerformDNS | emailchecker.go:112-146 | The DNS sub-check writes its own field and nothing else, and writes nothing when skipped. |
| Checker.PerformWellKnown | emailchecker.go:148-174 | The well-known sub-check writes its own field and nothing else, and writes nothing when skipped. |
| Checker.PerformPattern | emailchecker.go:176-203 | The pattern sub-check writes its own field and nothing else, and writes nothing when skipped. |
| Checker.PerformEducational | emailchecker.go:205-232 | The educational sub-check writes its own field and nothing else, and writes nothing when skipped. |
| Checker.Check | emailchecker.go:41-76 | An address is refused exactly when it has no domain after its last `@`, with "invalid email address: …". Otherwise the result is for that address. |
| Checker.CheckRefuses | emailchecker.go:57-60 | The refusal happens exactly when the address has no `@` or ends in `@`. |
| Checker.DomainAfterLastAt | emailchecker.go:62 | The domain is the non-empty, `@`-free text after the last `@`, and the address is the rest, `@` and the domain. |
| Checker.CheckFields | emailchecker.go:41-76 | Each sub-check field is "not run" when skipped. Otherwise it holds its service's answer for the domain: the disposable lookup with its deadline, and the DNS record with its MX records flagged. The analysis is the analyzer's verdict on the assembled fields. |
| Checker.OrderIrrelevant | emailchecker.go:64-68 | Started in the source's order (DNS, disposable, well-known, educational, pattern), the sub-checks give the same result as in the model's order, because each writes only its own field. |
| Analyzer.Analyze | analyzer/analyzer.go:39-198 | The score lies in [0, 1], the level is the one the score falls into, and at least one reason is given. |
| Analyzer.DisposableFirst | analyzer/analyzer.go:47-52 | A disposable domain yields high, 1.0 and the single disposable reason, whatever else was found. |
| Analyzer.NoMXSecond | analyzer/analyzer.go:54-59 | Failing that, a domain with no MX records yields high, 1.0 and the single "cannot receive email" reason. |
| Analyzer.PatternFindingsSpec | analyzer/analyzer.go:64-96 | The pattern findings count one reason per raised flag. A short local part does not count for an educational domain. The random flag is kept only off educational domains, and the special-rune reason appears exactly when that flag is set. |
| Analyzer.EducationalSuspicion | analyzer/analyzer.go:98-108 | An educational domain reaches at most one suspicious flag, below its block threshold. |
| Analyzer.EducationalNeverHigh | analyzer/analyzer.go:45-198 | An educational domain that passed the first two gates scores at most 0.5, is never high, and never gets the "multiple suspicious patterns" reason. |
| Analyzer.ManyFlagsBlock | analyzer/analyzer.go:98-108 | Three or more suspicious flags on a non-educational domain give high, 0.9, with the "multiple suspicious patterns" reason last. |
| Analyzer.RandomPatternHigh | analyzer/analyzer.go:110-120 | A random-looking local part on a non-educational domain is high, at 0.9 or 0.8. At 0.8 the last reason names a well-known domain exactly when the domain is well known. |
| Analyzer.EducationalDiscount | analyzer/analyzer.go:152-155 | An educational domain takes 0.2 off the domain score and adds its reason. |
| Analyzer.EducationalPenalties | analyzer/analyzer.go:123-139 | On an educational domain only the special-rune flag carries a pattern penalty, and that penalty never exceeds the one a non-educational domain gets. |
| Analyzer.ScoredMonotone | analyzer/analyzer.go:123-193 | On the scoring path, larger pattern, provider and DNS adjustments never give a lower score or a lower level. |
| Analyzer.WellKnownNeverRaises | analyzer/analyzer.go:39-200 | With everything else equal, a well-known provider never scores more than an unknown one, on any path. |
| Analyzer.NoSignalsExactlyWhenQuiet | analyzer/analyzer.go:39-200 | "No suspicious signals detected" is the whole verdict exactly when no flag, provider verdict, educational mark or weak DNS record was found. The score is then 0 and the level low. |
| Analyzer.Clamp | analyzer/analyzer.go:183-184 | The clamped score lies in [0, 1], equals the raw score inside it and is the nearer end outside it. |
| Analyzer.LevelOfMonotone | analyzer/analyzer.go:186-193 | A higher score never gives a lower level. |
| EmailPattern.CheckWith | emailpattern/emailpattern.go:57-113 | The check fails exactly on an address that is not one `@` between two non-empty parts. |
| EmailPattern.CheckRejects | emailpattern/emailpattern.go:58-66 | An address without a `local@domain` split is refused with "invalid email format". |
| EmailPattern.CheckFlags | emailpattern/emailpattern.go:57-113 | On `local@domain`, each flag holds exactly when its condition holds: a short local part; a digit run longer than the maximum; too many special runes; the second randomness rule. A keyboard walk, a digit run or excess special runes each imply the random flag. |
| EmailPattern.SpecialShareExceeds | emailpattern/emailpattern.go:76-85 | Too many special runes means that the special runes' share of a non-empty local part is above the configured ratio. |
| EmailPattern.WellFormedSpec | emailpattern/emailpattern.go:58-66 | An address is well formed exactly when it splits as `local@domain`, and the checker reads that split. |
| EmailPattern.WellFormedSplits | emailpattern/emailpattern.go:58-66 | A well-formed address is its local part, one `@`, and the text after that `@`. |
| EmailPattern.SplitWellFormed | emailpattern/emailpattern.go:58-66 | Text that splits as `local@domain` with no other `@` is well formed, and its `@` sits right after the local part. |
| EmailPattern.LocalPartOfSplit | emailpattern/emailpattern.go:68 | Once an address is `local@domain`, the part checked is `local`. |
| EmailPattern.FirstRuleImpliesSecond | emailpattern/emailpattern.go:93-110 | Whenever the first randomness rule fires, the second one does too. |
| EmailPattern.SpecialCount | emailpattern/emailpattern.go:76-85 | The special-rune count never exceeds the rune count. |
| EmailPattern.SpecialCountZero | emailpattern/emailpattern.go:76-85 | Text without special runes counts zero of them. |
| EmailPattern.LetterCount | emailpattern/emailpattern.go:225-232 | The letter count never exceeds the rune count. |
| EmailPattern.Lower | emailpattern/emailpattern.go:116 | Lower-casing maps rune for rune and keeps the length. |
| EmailPattern.TrailingDigits | emailpattern/emailpattern.go:298-314 | The trailing count of the digit scan is a run of digits at the end of the text. |
| EmailPattern.NonDigitBlocks | emailpattern/emailpattern.go:298-314 | A non-digit rune resets the run: no digit run spans it. |
| EmailPattern.TrailingDigitsAtLeast | emailpattern/emailpattern.go:298-314 | A digit run that reaches the end is counted in full by the scan. |
| EmailPattern.LongestDigitRunSpec | emailpattern/emailpattern.go:298-314 | The scan's maximum exceeds `k` exactly when some run of consecutive digits is longer than `k`. |
| EmailPattern.ContainsSequence | emailpattern/emailpattern.go:352-360 | A text contains a sequence of a row exactly when one of its windows of that length occurs in the row. |
| EmailPattern.WindowStep | emailpattern/emailpattern.go:352-360 | The windows of a text are its first window and the windows of its tail. |
| EmailPattern.Reverse | emailpattern/emailpattern.go:362-368 | Reversal keeps the length and reads the runes backwards. |
| EmailPattern.ReverseReverse | emailpattern/emailpattern.go:362-368 | Reversing twice gives back the text. |
| EmailPattern.ByteLenReverse | emailpattern/emailpattern.go:337 | Reversal keeps the UTF-8 length the walk check guards on. |
| EmailPattern.WindowNeedsRowRunes | emailpattern/emailpattern.go:352-360 | A window holding a rune that the row lacks is not a stretch of the row. |
| EmailPattern.WindowNeedsRowPair | emailpattern/emailpattern.go:352-360 | A text with a neighbouring pair that the row never has side by side is not a stretch of the row. |
| EmailPattern.WindowReverse | emailpattern/emailpattern.go:336-360 | A window found in a row is found, read backwards, in the reversed row. |
| EmailPattern.ContainsSequenceReverse | emailpattern/emailpattern.go:336-350 | Matching a text against a row is the same as matching the reversed text against the reversed row. |
| EmailPattern.KeyboardSeqReverse | emailpattern/emailpattern.go:336-350 | A text has a keyboard walk exactly when its reverse has one, since rows are tried both ways. |
| EmailPattern.Cases | emailpattern/emailpattern.go:370-396 | The case sequence of the cased runes holds only lower (0) and upper (1). |
| EmailPattern.CaseSwitchesSpec | emailpattern/emailpattern.go:370-396 | The switch counter equals the number of changes between neighbours in the case sequence, and the last case is its last entry. |
| EmailPattern.ChangesSnoc | emailpattern/emailpattern.go:370-396 | Appending a case adds one change exactly when it differs from the previous last case. |
| EmailPattern.CaseSwitchesUniform | emailpattern/emailpattern.go:370-396 | Text whose cased runes all share one case has no switches. |
| EmailPattern.LastLetterIndex | emailpattern/emailpattern.go:142-147 | The index found is that of a letter or mark, and no letter or mark follows it. |
| EmailPattern.LastLetterByteOffsetSpec | emailpattern/emailpattern.go:142-147 | The loop variable of `range` records the UTF-8 offset of the last letter, not its rune index. |
| EmailPattern.SplitLettersAndTrailingNumbers | emailpattern/emailpattern.go:137-173 | The split returns nothing only for empty text. Its parts concatenate back to the text, and two parts are a letter-ended name and a digit tail. |
| EmailPattern.SplitSpec | emailpattern/emailpattern.go:137-173 | The text splits in two exactly when it is letters up to a last letter followed only by digits, and then it splits at that boundary. |
| EmailPattern.LastLetterAscii | emailpattern/emailpattern.go:142-147 | On ASCII text the byte offset and the rune index coincide. |
| EmailPattern.SplitAgreesOnAscii | emailpattern/emailpattern.go:137-173 | On ASCII text the split as written and the corrected split agree. |
| EmailPattern.FourDigitsValue | emailpattern/emailpattern.go:213-223 | Four ASCII digits have their decimal value. |
| EmailPattern.LexLeqFourDigits | emailpattern/emailpattern.go:217-222 | Between four-digit strings the string comparison the year test uses is numeric comparison. |
| EmailPattern.IsLikelyYearSpec | emailpattern/emailpattern.go:213-223 | An ASCII part is a likely year exactly when it is four digits with value between 1900 and 2030. |
| EmailPattern.ScanInDigits | emailpattern/emailpattern.go:234-258 | Once the scan is in the digits, it succeeds exactly when the rest is digits, there were at least two letters and at most four digits in all. |
| EmailPattern.ScanInLetters | emailpattern/emailpattern.go:234-258 | From the letters, the scan succeeds exactly when the text is letters followed by an acceptable digit tail. |
| EmailPattern.HasNameWithTrailingNumbersSpec | emailpattern/emailpattern.go:234-258 | A part is a name with trailing numbers exactly when it is at least two letters followed by one to four digits. |
| EmailPattern.AllLettersValid | emailpattern/emailpattern.go:175-211 | A part of letters and marks only is a valid name part. |
| EmailPattern.NameThenDigitsValid | emailpattern/emailpattern.go:175-211 | Two or more letters followed by one to four digits make a valid name part. |
| EmailPattern.FewSwitchesValid | emailpattern/emailpattern.go:175-211 | A non-empty part with at most two letter-digit switches and at most 40% digits is valid. |
| EmailPattern.SplitAllLetters | emailpattern/emailpattern.go:137-173 | A part of letters and marks only is left whole by either split. |
| EmailPattern.NamePartsOfLetters | emailpattern/emailpattern.go:116-135 | Fields of letters and marks only are their own name parts. |
| EmailPattern.LetterFieldsLookHuman | emailpattern/emailpattern.go:116-135 | A local part whose lower-case form has only letters, marks and name separators looks like a human name. |
| EmailPattern.SwitchesWithoutLetters | emailpattern/emailpattern.go:260-280 | A part without letters, or without digits, has no letter-digit switches. |
| EmailPattern.SwitchesLettersThenDigits | emailpattern/emailpattern.go:260-280 | Letters followed by digits switch exactly once. |
| EmailPattern.HumanPattern | emailpattern/emailpattern.go:23 | The human-name regular expression matches exactly the word-rune strings; its other alternatives add nothing. |
| EmailPatternExamples.MalformedAddresses | emailpattern/emailpattern_test.go:188-199 | The empty string, a lone `@`, no `@`, an empty side and a doubled `@` are all refused. |
| EmailPatternExamples.DigitRuns | emailpattern/emailpattern_test.go:97-108 | `john12345` is within the limit, `john123456` is over it, and `john123abc456` is within it. Under a limit of three, `user1234` is over. |
| EmailPatternExamples.SpecialCharsInitials | emailpattern/emailpattern_test.go:131-134 | `a.b_c` has too many special runes under both the default and a 20% limit. |
| EmailPatternExamples.SpecialCharsDottedName | emailpattern/emailpattern_test.go:131-134 | `john.doe` stays under the default limit. |
| EmailPatternExamples.KeyboardWalks | emailpattern/emailpattern_test.go:46-49 | `qwer`, `asdf` and the backwards `trewq` are walks; two runes are too few. |
| EmailPatternExamples.DmitriyRunes | emailpattern/emailpattern.go:142-147 | The sample's seven name runes are two bytes wide in UTF-8, and its tail is five ASCII digits. |
| EmailPatternExamples.DmitriySplit | emailpattern/emailpattern.go:137-173 | As written the sample is not split. The corrected split gives the name and `19842`. |
| EmailPatternExamples.DmitriyFields | emailpattern/emailpattern.go:116-120 | The sample is already lower case and is one field, so the name parts are exactly its split. |
| EmailPatternExamples.DmitriyWholeInvalid | emailpattern/emailpattern.go:175-211 | Undivided, the sample is not a valid name part. |
| EmailPatternExamples.DmitriyNameValid | emailpattern/emailpattern.go:175-211 | Divided, its letters form a valid name part. |
| EmailPatternExamples.DigitsPartValid | emailpattern/emailpattern.go:175-211 | So does its short run of digits. |
| EmailPatternExamples.LetterRowAvoidsDmitriy | emailpattern/emailpattern.go:24-28 | No lower-case ASCII row, read either way, holds a rune of the name. |
| EmailPatternExamples.DigitRowAvoidsDmitriy | emailpattern/emailpattern.go:24-28 | The digit row, read either way, never has two of the sample's digits side by side. |
| EmailPatternExamples.KeyboardRowsAvoidDmitriy | emailpattern/emailpattern.go:24-28 | This holds for every keyboard row in both directions. |
| EmailPatternExamples.DmitriyWindowsOffRow | emailpattern/emailpattern.go:352-360 | So no four-rune window of the sample lies on such a row. |
| EmailPatternExamples.DmitriyNoKeyboardWalk | emailpattern/emailpattern.go:336-350 | The sample has no keyboard walk. |
| EmailPatternExamples.DmitriyDigitRuns | emailpattern/emailpattern.go:298-314 | Its longest digit run is within the limit. |
| EmailPatternExamples.DmitriyPlainRunes | emailpattern/emailpattern.go:76-85 | It has no special runes, no case switches, and matches the human-name pattern. |
| EmailPatternExamples.DmitriyNameVerdicts | emailpattern/emailpattern.go:115-135 | It fails the human-name test as written and passes it with the corrected split. |
| EmailPatternExamples.DmitriyVerdicts | emailpattern/emailpattern.go:102-110 | The second randomness rule fires as written and not with the corrected split. |
| EmailPatternExamples.DmitriyCheck | emailpattern/emailpattern.go:57-113 | The whole check, on any domain, flags the sample random as written and not random when corrected. |
| Cloudflare.GetDNSValidation | dns/cloudflare.go:76-196 | The validation fails exactly when one of the five lookups fails, with one such error. Otherwise it is for the domain asked. |
| Cloudflare.GetDNSValidationFields | dns/cloudflare.go:83-189 | With every lookup answered: <br>• a non-zero status empties its field; <br>• the A records are the type-A data of a usable answer; <br>• the domain is parked exactly when a name server is a parking one; <br>• `hasMX` holds exactly when the MX answer has status 0 and some answer; <br>• SPF and DMARC are set exactly when a policy record is found. |
| Cloudflare.DataOfTypeSpec | dns/cloudflare.go:90-97 | The data kept are exactly those of the answers of the requested type, and filtering distributes over concatenation. |
| Cloudflare.MXRecords | dns/cloudflare.go:132-146 | No more MX records than answers are produced. |
| Cloudflare.MXRecordsNone | dns/cloudflare.go:134-136 | Answers none of which has exactly two fields give no MX records. |
| Cloudflare.MXRecordsAppend | dns/cloudflare.go:132-146 | The records of consecutive answers are concatenated in answer order. |
| Cloudflare.MXRecordsOne | dns/cloudflare.go:134-145 | One answer gives its parsed record, or nothing when it does not parse. |
| Cloudflare.MXRecordsMember | dns/cloudflare.go:132-146 | A record comes out exactly when some answer parses to it. |
| Cloudflare.HasMXWithoutRecords | dns/cloudflare.go:124-148 | A non-empty status-0 MX answer sets the MX flag even when no record parses. |
| Cloudflare.ParseMXSpec | dns/cloudflare.go:133-144 | An answer parses exactly when it has two fields. The exchange is the second field and the record is not yet flagged disposable. |
| Cloudflare.ParseMXRoundTrip | dns/cloudflare.go:133-144 | The text `preference exchange` parses back to that preference and exchange. |
| Cloudflare.ParseMXBadPreference | dns/cloudflare.go:135-142 | A preference that is not a number is taken as 0, because the `Atoi` error is ignored. |
| Cloudflare.FirstWithPrefix | dns/cloudflare.go:157-166 | The answer chosen is the first whose data starts with the prefix, and none is chosen when no answer does. |
| Cloudflare.FirstMatchWins | dns/cloudflare.go:157-166 | Answers after the first match are never read. |
| Cloudflare.TxtPolicyUnquoted | dns/cloudflare.go:159-161 | A selected policy record has no quote at either end. |
| Cloudflare.FirstError | dns/cloudflare.go:191-195 | No error is reported exactly when every lookup succeeded, and a reported error is one of theirs. |
| Parked.ExtractBaseDomain | dns/parked.go:56-63 | The base domain is the registrable domain, or the name itself when that cannot be found. |
| Parked.NoDotUntrimmed | dns/parked.go:50 | A name without a trailing dot is looked up as it is. |
| Parked.TrailingDotIgnored | dns/parked.go:49-54 | A single trailing dot makes no difference to the verdict. |
| Parked.ListedNameParked | dns/parked.go:49-54 | A listed name is parked, with or without a trailing dot. |
| Parked.BaseDomainParked | dns/parked.go:49-54 | A name whose registrable domain is listed is parked. |
| Parked.UnlistedNotParked | dns/parked.go:49-54 | A name is not parked when neither it nor its registrable domain is listed. |
| Parked.DoubleDotKept | dns/parked.go:49-54 | Only one trailing dot is trimmed, so a name ending in two dots is parked only if the one-dot name is listed. |
| Parked.SedoHostParked | dns/parked.go:176 | A Sedo parking name server is recognised. |
| Parked.InNetworkRange | dns/parked.go:35-47 | An address lies in a network exactly when it has the network's family and lies between the network's first and last address. |
| Parked.HostRoute | dns/parked.go:35-47 | A full-length prefix holds exactly its own address. |
| Parked.DefaultRoute | dns/parked.go:35-47 | A zero-length prefix holds every address of its family. |
| Parked.PowWidth | dns/parked.go:35-47 | The family's address space has two to the width addresses. |
| Parked.Networks | dns/parked.go:15-33 | The networks built are exactly those whose CIDR text parses; the rest are skipped. |
| Parked.IsParkedDomainIP | dns/parked.go:35-47 | Text that is not an address is not parked. An address is parked exactly when some listed network holds it. |
| Parked.BlockEndParked | dns/parked.go:201 | The last address of `103.224.182.0/23` is parked. |
| Repository.WithDomains | sqlite/sqlite.go:217-274 | The store with one table's domains replaced and every other table, the DNS cache and the metadata unchanged. |
| Repository.IsDisposable | sqlite/sqlite.go:84-109 | A query failure is reported. Otherwise a name, less one trailing dot, is disposable exactly when it or its base domain is listed. |
| Repository.IsListed | sqlite/sqlite.go:157-197 | The top and educational lookups report a query failure, or whether the name, less one trailing dot, is listed. |
| Repository.BaseFallbackOnlyForDisposable | sqlite/sqlite.go:84-170 | Only the disposable lookup falls back to the base domain: a listed base makes a name disposable but not top. |
| Repository.LookupsIgnoreTrailingDot | sqlite/sqlite.go:84-197 | A trailing dot is ignored by all three lookups. |
| Repository.GetDNSRecord | sqlite/sqlite.go:126-140 | A cached row comes back for exactly the domains that have one, with its data and time. A failure is reported with the domain named. |
| Repository.UpsertDNSRecord | sqlite/sqlite.go:142-155 | An upsert either succeeds or reports its failure and changes nothing. |
| Repository.UpsertThenGet | sqlite/sqlite.go:126-155 | After an upsert the domain reads back with the new data and time. Other domains, the lists and the metadata are unchanged. |
| Repository.NeedsRefresh | sqlite/sqlite.go:276-301 | A query failure gives an error. A missing stamp means a refresh is needed. An unparsable stamp gives an error. Otherwise a refresh is needed exactly when more than twelve hours have passed. |
| Repository.DedupSpec | sqlite/sqlite.go:239-253 | The inserted names are exactly the non-empty input names, each once. |
| Repository.DedupPrefix | sqlite/sqlite.go:239-253 | A name kept from a prefix of the input is kept from the whole input. |
| Repository.Replaced | sqlite/sqlite.go:217-274 | A replaced table holds exactly the non-empty names given and its stamp is updated; the rest of the store is unchanged. |
| Repository.ReplaceDomains | sqlite/sqlite.go:217-274 | The update commits in full exactly when no step fails; otherwise the store is unchanged and the failing step is reported. |
| Repository.UpdateDomains | sqlite/sqlite.go:217-274 | The statement loop inserts each non-empty name once, in first-seen order, and produces the transaction's outcome. |
| Repository.FreshAfterReplace | sqlite/sqlite.go:217-301 | Right after a committed replacement, and for twelve hours, the table needs no refresh. |
| Repository.FailedReplaceKeepsStaleness | sqlite/sqlite.go:217-301 | A failed replacement leaves both the table and its staleness as they were. |
| Resolver.Cached | dns/dns.go:41-48 | A cached answer is used exactly when the row can be read, exists, is younger than the cache lifetime and decodes; the answer is the decoded row. |
| Resolver.CacheAfter | dns/dns.go:75-80 | A failed fetch is not cached. |
| Resolver.GetDNSValidationResult | dns/dns.go:40-83 | The flight table is left as found. A fetch happens exactly when no usable cached row exists and no flight is running for the domain, and then its result is returned. Without a fetch nothing changes. A failure never touches the store. |
| Resolver.FreshRowAnswers | dns/dns.go:41-48 | A fresh, decodable row answers without a fetch and changes nothing. |
| Resolver.UnusableRowFetches | dns/dns.go:41-65 | A failed read, a missing, stale or undecodable row triggers a fetch. |
| Resolver.ErrorNotCached | dns/dns.go:65-73 | An error is returned and not cached, so the next request fetches again. |
| Resolver.FetchedThenCached | dns/dns.go:65-80 | A fetched answer is cached. Within the lifetime it is served from the cache; after it, it is fetched again. |
| Resolver.UpsertFailureIgnored | dns/dns.go:75-80 | A failed cache write still returns the fetched answer. |
| Refresh.UpdateDisposableList | disposable/disposable.go:43-59 | A staleness error is reported, a fresh table is left alone, and a stale one is fetched. A failed download leaves the table; a successful one replaces it transactionally. |
| Refresh.UpdateWellKnownList | wellknown/wellknown.go:40-65 | The same for the top list, with its own messages. An empty download is refused ("top list is empty"). |
| Refresh.UpdateEducationalDomains | edu/edu.go:37-53 | The same for the educational list, which accepts an empty download. |
| Refresh.New | disposable/disposable.go:23-37 | Construction succeeds exactly when the initial update does. The top list's error is wrapped as "could not update well-known list: …". |
| Refresh.FreshTableUntouched | wellknown/wellknown.go:40-50 | A table stamped within twelve hours is neither fetched nor changed. |
| Refresh.StaleTableReplaced | disposable/disposable.go:43-59 | A stale table with a committing download holds exactly the downloaded names, with a new stamp. |
| Refresh.EmptyListContrast | wellknown/wellknown.go:55-57 | An empty top list is refused and the table kept. An empty educational list empties its table. |
| Refresh.CorruptStampBlocksRefresh | sqlite/sqlite.go:290-293 | A stamp that does not parse stops every refresh of that table and makes construction fail. |
| Fetchers.FetchDisposableDomains | disposable/github.go:22-62 | The download fails on a transport error, a non-200 status or a read error, and with no non-blank line. Otherwise the result is the trimmed non-blank lines. |
| Fetchers.DisposableDomainsAreLines | disposable/github.go:44-51 | A name is in the list exactly when it is the non-empty trim of some line of the body. |
| Fetchers.BlankBodyRefused | disposable/github.go:57-59 | A body with no non-blank line is refused with "no domains found in response". |
| Fetchers.GetTrancoListID | wellknown/tranco.go:37-81 | A list ID is the body of a 200 answer and is never `null` or the server-error text. A non-200 status is reported. |
| Fetchers.DownloadURL | wellknown/tranco.go:84 | The download address embeds the ID verbatim between the fixed prefix and `/1000000`. |
| Fetchers.TrancoDomainSpec | wellknown/tranco.go:108-122 | A line yields a domain exactly when it has a comma that is not its last rune. The domain is everything after the first comma. |
| Fetchers.CommaSplit | wellknown/tranco.go:108-122 | A line splits around a comma, and the text before the comma loses at most one byte of the line exactly when the comma is the last rune. |
| Fetchers.TrancoDomainOfPair | wellknown/tranco.go:108-122 | `rank,domain` yields the domain, even when it holds further commas. |
| Fetchers.TrancoTrailingCommaSkipped | wellknown/tranco.go:108-122 | A line whose only comma is its last rune is skipped. |
| Fetchers.TrancoDomains | wellknown/tranco.go:108-122 | No more domains than lines are produced. |
| Fetchers.TrancoDomainsAppend | wellknown/tranco.go:108-122 | Line order is kept across a split of the body. |
| Fetchers.FetchTrancoList | wellknown/tranco.go:83-125 | A transport error and a non-200 status are reported. Otherwise the result is the domains of the body's lines. |
| Fetchers.GetTopList | wellknown/tranco.go:26-35 | The top list is the Tranco list for yesterday's ID, or the ID error. |
| Fetchers.FetchEducationalDomains | edu/fetcher.go:20-57 | A transport error and a decode error are reported. Otherwise the result is every university's domains, concatenated in order. |
| Fetchers.ConcatMember | edu/fetcher.go:47-50 | A domain is in the result exactly when some university lists it. |
| Fetchers.ConcatAppend | edu/fetcher.go:47-50 | Concatenation keeps order across a split of the university list. |
| Fetchers.EduStatusIgnored | edu/fetcher.go:20-57 | The status code of the university list is never looked at. |
| Fetchers.EduNoDomains | edu/fetcher.go:52-54 | Universities without domains give an empty, successful list. |
| Cli.ReadEmails | cmd/email-checker/main.go:355-371 | The addresses read are the trimmed non-blank lines, or the read error. |
| Cli.SelectInput | cmd/email-checker/main.go:99-128 | A file is read and checked concurrently. Standard input is read and checked sequentially. Arguments are used as given. With none of the three, the usage error is returned. |
| Cli.InputPrecedence | cmd/email-checker/main.go:99-113 | A file wins over standard input, which wins over arguments. |
| Cli.FirstFailure | cmd/email-checker/main.go:246-268 | The failure reported is the first address, in order, whose check fails. |
| Cli.ProcessSequentially | cmd/email-checker/main.go:246-268 | When every valid address checks, the results come in input order. Otherwise the first failure, in order, is reported. |
| Cli.ProcessConcurrently | cmd/email-checker/main.go:270-339 | No valid address gives no results. When every check succeeds, the results come in input order whatever the completion order. Otherwise the error is the first failure in completion order. |
| Cli.RealCheckFailsOnBadAddress | cmd/email-checker/main.go:246-268 | With the real checker, a run fails exactly when some valid line has no domain part. |
| HttpExt.IsLoggableContentType | pkg/httpext/responsewriter.go:64-78 | A content type is loggable exactly when, lower-cased, it starts with the JSON or the form media type. |
| HttpExt.PrefixLowerRune | pkg/httpext/responsewriter.go:65 | A rune lowers to ASCII exactly when it is ASCII, U+0130 or U+212A. The ASCII capitals become small letters, U+0130 becomes `i` and U+212A becomes `k`. |
| HttpExt.PrefixLowerDecides | pkg/httpext/responsewriter.go:65-75 | Any lowering that agrees with `unicode.ToLower` wherever a result is ASCII decides every ASCII prefix test as the model does. |
| HttpExt.LoggableUnderLowering | pkg/httpext/responsewriter.go:64-78 | With such a lowering in place of `strings.ToLower`, the verdict is whether the lowered value starts with one of the two prefixes. |
| HttpExt.DottedCapitalLoggable | pkg/httpext/responsewriter.go:64-78 | `APPLİCATION/JSON` is loggable, since U+0130 lowers to `i`. |
| HttpExt.AnyPrefix | pkg/httpext/responsewriter.go:70-76 | Some listed prefix starts the text. |
| HttpExt.LoggableWithParameters | pkg/httpext/responsewriter.go:64-78 | Parameters after a loggable media type, in any case, keep it loggable. |
| HttpExt.JsonLoggable | pkg/httpext/responsewriter.go:64-78 | `application/json` itself is a loggable content type. |
| HttpExt.TextNotLoggable | pkg/httpext/responsewriter.go:64-78 | A `text/…` type is not loggable. |
| HttpExt.SetHandlerError | pkg/httpext/responsewriter.go:19-21 | The handler error is recorded and nothing else changes. |
| HttpExt.WriteHeader | pkg/httpext/responsewriter.go:36-62 | Only the first call sends and records its status. The capture decision is made once, from the content type at that moment. Body and capture are untouched. |
| HttpExt.Write | pkg/httpext/responsewriter.go:23-34 | With an underlying writer that accepts every byte, the whole body is written. A write before any status sends 200, and a later write keeps the status already sent. |
| HttpExt.NewCaptureInv | pkg/httpext/responsewriter.go:9-17 | A fresh capture satisfies the writer's invariant. |
| HttpExt.ApplyInv | pkg/httpext/responsewriter.go:19-62 | Every writer call preserves the invariant: one status sent at most, and a kept capture sees the whole body. |
| HttpExt.RunInv | pkg/httpext/responsewriter.go:19-62 | The invariant holds after any sequence of calls. |
| HttpExt.RunStable | pkg/httpext/responsewriter.go:36-62 | A sent status and a made capture decision never change afterwards. |
| HttpExt.FirstHeaderWins | pkg/httpext/responsewriter.go:36-40 | The first `WriteHeader` wins, whatever the handler does afterwards. |
| HttpExt.WriteDefaultsTo200 | pkg/httpext/responsewriter.go:23-28 | A body written before any status is sent with 200. |
| HttpExt.CaptureFollowsContentType | pkg/httpext/responsewriter.go:42-60 | With a capture requested, the body is captured in full exactly when the content type is loggable. |
| HttpExt.NoCaptureNoDecision | pkg/httpext/responsewriter.go:42-60 | Without a capture, the content type is never consulted and nothing is captured. |
| HttpExt.SetStatusCode | pkg/httpext/context.go:12-15 | The request now carries the code, and every other context value is kept. |
| HttpExt.GetStatusCode | pkg/httpext/context.go:17-24 | Without a stored code the status is 200. |
| HttpExt.GetAfterSet | pkg/httpext/context.go:12-24 | Reading back gives the code last set, and the last of several sets wins. |
| HttpExt.ExtractPort | pkg/httpext/httpext.go:255-264 | The port is the decimal value of the port part. Split and parse errors are reported. |
| HttpExt.ApplyOption | pkg/httpext/httpext.go:95-141 | Each option sets its fields. The address option also sets the port and fails on a bad one; the certificate option fails unless both files exist. |
| HttpExt.FirstFailingOptionAborts | pkg/httpext/httpext.go:40-44 | The first failing option aborts construction with its error; later options are not applied. |
| HttpExt.SetupDefaults | pkg/httpext/httpext.go:276-288 | Each empty field gets its default and set fields stay. |
| HttpExt.SetupDefaultsIdempotent | pkg/httpext/httpext.go:276-288 | Defaults leave no field empty, so filling them again changes nothing. |
| HttpExt.NewServer | pkg/httpext/httpext.go:37-93 | A built server has an address, domains and a certificate cache. Automatic TLS is on exactly for an HTTPS port without both certificate files. |
| HttpExt.AddrSetsPort | pkg/httpext/httpext.go:120-129 | An address with a numeric port sets that port, and automatic TLS follows the port. |
| HttpExt.BadPortFails | pkg/httpext/httpext.go:255-264 | An address whose port is not a number makes construction fail. |
| HttpExt.NoOptionsDefaults | pkg/httpext/httpext.go:276-288 | Without options the server gets the default address, host and cache, on port 0, without TLS. |
| HttpLog.ApplyLoggingOption | pkg/httpmiddleware/log.go:166-200 | The whitelist option replaces only the whitelist and the size option only the size. |
| HttpLog.LastWhitelistWins | pkg/httpmiddleware/log.go:26-28 | The last whitelist given wins, and the body size is untouched by it. |
| HttpLog.PortionWrite | pkg/httpmiddleware/log.go:234-246 | A write always reports the whole input written. It counts every byte, extends the buffer without changing what is already there, and never grows it past the limit. |
| HttpLog.WriteAllPrefix | pkg/httpmiddleware/log.go:234-246 | After any writes the buffer is the stream's prefix up to the limit, and the count is the stream's length. |
| HttpLog.CapturedPrefix | pkg/httpmiddleware/log.go:217-246 | A fresh capture holds the first `limit` bytes of the stream and counts all of them. |
| HttpLog.HasMoreIffTruncated | pkg/httpmiddleware/log.go:230-232 | `HasMore` holds exactly when bytes were lost. |
| HttpLog.Logged | pkg/httpmiddleware/log.go:117-121 | The logged body is the buffer, followed by the truncation mark exactly when bytes were lost. |
| HttpLog.RequestCapture | pkg/httpmiddleware/log.go:77-86 | A request body is captured exactly when request logging is on, there is a body and its content type is loggable. |
| HttpLog.RequestBodyEntry | pkg/httpmiddleware/log.go:116-122 | The request body is logged exactly for a status of 400 or more with a capture, and the truncation mark shows exactly when bytes were lost. |
| HttpLog.ResponseBodyEntry | pkg/httpmiddleware/log.go:141-147 | The response body is logged exactly when a capture was kept. |
| HttpLog.FailedRequestBodyInFull | pkg/httpmiddleware/log.go:77-122 | A loggable request body within the limit is logged whole for a failed request and not at all for a successful one. |
| HttpLog.LoggedHeaders | pkg/httpmiddleware/log.go:48-64 | The headers logged are exactly the whitelisted ones, or all when the whitelist is empty. Secrets are redacted and multiple values are joined with ", ". |
| HttpLog.CollectHeaders | pkg/httpmiddleware/log.go:48-64 | The header loop, in any iteration order, produces exactly that map. |
| HttpLog.EmptyWhitelistLogsAll | pkg/httpmiddleware/log.go:30 | An empty whitelist logs every header. |
| HttpLog.SecretsRedacted | pkg/httpmiddleware/log.go:56-58 | An `Authorization` header, in whatever case it is spelt, is never logged in clear. |
| HttpLog.LevelFor | pkg/httpmiddleware/log.go:154-161 | Statuses from 0 below 400 log at info and 400 to 499 at warning; the rest, negative ones included, at error. |
| HttpLog.LevelMonotone | pkg/httpmiddleware/log.go:154-161 | Among non-negative statuses, a larger status never logs at a lower level. |
| HttpLog.SilentHandlerInfo | pkg/httpmiddleware/log.go:154-161 | A handler that only records an error leaves status 0 and logs at info. |
| ApiErrors.AddError | pkg/errorsext/validation.go:16-22 | Adding creates the list when nil and appends exactly one entry after the existing ones. |
| ApiErrors.HasErrors | pkg/errorsext/validation.go:24-26 | A list has errors exactly when the pointer is set and the list is non-empty. |
| ApiErrors.AddThenHasErrors | pkg/errorsext/validation.go:16-26 | After an addition there are errors, and every earlier entry is kept. |
| ApiErrors.AddInOrder | pkg/errorsext/validation.go:16-22 | Successive additions list the entries in the order added. |
| ApiErrors.EntryTexts | pkg/errorsext/validation.go:8-11 | One text per entry, in order. |
| ApiErrors.ListText | pkg/errorsext/validation.go:7-14 | The list text starts with "validation errors: [" and ends with "]". `ListTextAdd` and `ListTextOfAdds` state its contents. |
| ApiErrors.ListTextAdd | pkg/errorsext/validation.go:7-22 | One more entry puts a space and its text before the closing bracket, or its text alone when the list was empty or nil. |
| ApiErrors.ListTextOfAdds | pkg/errorsext/validation.go:7-22 | A list built by additions prints the entries' texts in the order added, separated by single spaces, inside the brackets. |
| ApiErrors.ListTextOne | pkg/errorsext/validation.go:7-35 | A single entry reads `validation errors: [field: F, message: M]`. |
| ApiErrors.KindOfStatus | pkg/errorsext/http.go:23-119 | A status maps back to the constructor that produces it. |
| ApiErrors.StatusIdentifiesKind | pkg/errorsext/http.go:23-119 | Every constructor's status is an error status, and no two constructors share one. |
| ApiErrors.KindOfCode | pkg/errorsext/http.go:23-119 | A code maps back to the constructor that produces it. |
| ApiErrors.CodeIdentifiesKind | pkg/errorsext/http.go:23-119 | No two constructors share a code. |
| ApiErrors.Make | pkg/errorsext/http.go:23-119 | A plain constructor sets its fixed status and code and the message given, with no validation list or cause. |
| ApiErrors.Internal | pkg/errorsext/http.go:55-62 | The internal-error constructor is the only one that carries a cause. |
| ApiErrors.Unprocessable | pkg/errorsext/http.go:72-79 | The unprocessable-entity constructor is the only one that carries validation errors. |
| ApiErrors.ErrorText | pkg/errorsext/http.go:17-19 | The error text names the message and code and ends with the status in parentheses. |
| ApiErrors.ErrorTextShowsStatus | pkg/errorsext/http.go:17-19 | Two errors with the same message and code print alike only when their statuses agree. |
| Responder.BodyWrite | pkg/httpmiddleware/httpmiddleware.go:46-61 | A body is written exactly when encoding succeeds. |
| Responder.JSON | pkg/httpmiddleware/httpmiddleware.go:35-63 | The content type is JSON and the status is the error's, or else the context's. The cause is recorded exactly for an internal error on a recording writer. No data and no error write no body. |
| Responder.Handle | pkg/httpmiddleware/httpmiddleware.go:12-32 | A panic becomes an internal error, an error wins over data, and otherwise the data is answered. |
| Responder.Served | pkg/httpmiddleware/httpmiddleware.go:12-63 | Through the response capture, exactly one status is sent (500 for a panic, the error's or else the context's), and the whole body is captured. |
| Responder.JsonAfterHeader | pkg/httpmiddleware/httpmiddleware.go:36-63 | Once the JSON content type and a status are set, later calls that set no content type keep the capture, the status and the single forwarded status. |
| Responder.NoContentTypeChange | pkg/httpmiddleware/httpmiddleware.go:36-63 | Nothing after the first call changes the content type. |
| Responder.PanicAnswered | pkg/httpmiddleware/httpmiddleware.go:15-22 | A panic is answered 500 with code `internal_error`, and the panic value is recorded as the handler error. |
| Responder.NilDataNoBody | pkg/httpmiddleware/httpmiddleware.go:56-63 | No data and no error send only the header and the status. |
| Handlers.CheckEmail | api/handlers/check.go:24-42 | A bad escape gives 400. A checker failure gives 500 with the failure as cause. Otherwise the result is returned. |
| Handlers.CheckEmailWithChecker | api/handlers/check.go:24-42 | With the real checker, an address without a domain part is a 500 `internal_error`, and any other address is answered with its own result. |
| Handlers.Health | api/handlers/ops.go:16-20 | Health answers 204 and returns nothing. |
| Handlers.NotFoundHandler | api/handlers/ops.go:22-26 | Unknown routes answer 404 `not_found`. |
| Handlers.MethodNotAllowedHandler | api/handlers/ops.go:28-32 | Wrong methods answer 405 `method_not_allowed`. |
| Handlers.OpsServed | api/handlers/ops.go:16-32 | Through the responder these give 204 with no body, 404 and 405. |
| Handlers.AllowedHosts | api/handlers/middleware/middleware.go:11-20 | The allowed hosts are the comma-separated, untrimmed entries of the setting, or the default when it is empty. |
| Handlers.HostValidation | api/handlers/middleware/middleware.go:10-31 | A request passes exactly when its Host is non-empty and exactly one of the allowed hosts. |
| Handlers.GateEvents | api/handlers/middleware/middleware.go:23-30 | A refused request gets 403, and a passed one gets nothing from the middleware. |
| Handlers.DefaultAllowsLocalhostOnly | api/handlers/middleware/middleware.go:11-14 | Without a setting only `localhost:8080` passes. |
| Handlers.SingleHostAllowed | api/handlers/middleware/middleware.go:16-27 | A setting without commas allows exactly that one host. |
| Handlers.TwoHostsAllowed | api/handlers/middleware/middleware.go:16-27 | Two comma-separated hosts allow exactly those two, compared exactly. |
| Handlers.EmptyHostRefused | api/handlers/middleware/middleware.go:23-27 | An empty Host is refused even when a trailing comma lists the empty name. |
| Widget.ClearStates | static/src/script.js:81-87 | The result, error, panels and timing are reset. The address, loading flag and notification are kept. |
| Widget.ClearAll | static/src/script.js:76-79 | Clearing empties the address and the results. |
| Widget.ClearAllIdempotent | static/src/script.js:76-79 | Clearing twice is clearing once, and a cleared form starts no check. |
| Widget.SelectSuggestion | static/src/script.js:70-74 | Choosing a suggestion fills the address with it and closes the list; nothing else changes. |
| Widget.Start | static/src/script.js:38-42 | A blank address starts nothing. Otherwise the form is loading, with no result, error or timing, and the address is kept. |
| Widget.SuggestionsStartChecks | static/src/script.js:12-17 | Every suggestion starts a check. |
| Widget.FailureMessage | static/src/script.js:49-51 | The failure shown is the body's message, or "Failed to check email" when it has none. |
| Widget.Complete | static/src/script.js:45-67 | A good answer shows the data and its elapsed time. A bad answer or a thrown error shows the message. Loading always ends. |
| Widget.InitialConsistent | static/src/script.js:3-10 | The initial state is consistent. |
| Widget.StepConsistent | static/src/script.js:38-87 | Any user action or reply keeps the state consistent, provided no second check starts while one is pending. Consistent means: at most one request pending, loading exactly while pending, never a result and an error together. |
| Widget.SerialConsistent | static/src/script.js:38-87 | Every serial session of actions keeps the state consistent. |
| Widget.OverlapBreaksConsistency | static/src/script.js:38-68 | Two overlapping checks break it: the first reply clears loading while a request is pending, and a failing second reply leaves a result and an error shown together. |
| Widget.ShowNotification | static/src/script.js:131-136 | The notification shows the message given; nothing else changes. |
| Widget.WithoutFresh | static/src/script.js:112-127 | Removing a node that is not there leaves the children unchanged. |
| Widget.WithoutAppended | static/src/script.js:112-127 | Removing a freshly appended node gives back the original children. |
| Widget.FallbackCopy | static/src/script.js:106-129 | The fallback appends a text area with the text and removes it again. It reports success exactly when the copy command succeeded. |
| Widget.FallbackLeavesBody | static/src/script.js:112-127 | The page body holds the text area during the copy and is as before afterwards. |
| Widget.CopyToClipboard | static/src/script.js:89-104 | Copying does nothing without a result. It succeeds exactly when the secure clipboard accepts the text or the fallback works. The page is touched exactly when the fallback runs, and it copies the serialised result. |
| Widget.AfterCopy | static/src/script.js:89-104 | A copy changes only the notification, and without a result changes nothing. |
| Widget.Lookup | static/src/script.js:138-158 | The intended lookup gives a listed level's value and the fallback for anything else. |
| Widget.LookupAsWritten | static/src/script.js:138-158 | A plain-object lookup gives a listed key's value, the inherited member for an inherited property name, and otherwise the fallback. |
| Widget.LookupAgrees | static/src/script.js:138-158 | The two lookups agree on every key that is not an inherited property name. |
| Widget.RiskEmojiAsWritten | static/src/script.js:138-145 | As written, the emoji lookup is correct for any level that is not an inherited property name. |
| Widget.BorderClassAsWritten | static/src/script.js:151-158 | As written, the border lookup is correct for any level that is not an inherited property name. |
| Widget.PrototypeNamesLeak | static/src/script.js:138-158 | `toString` and `constructor` reach inherited members instead of the fallback. |
| Widget.RiskEmoji | static/src/script.js:138-145 | The emoji is one of the four glyphs, and it is the fallback exactly for levels other than low, medium and high. |
| Widget.BorderClass | static/src/script.js:151-158 | The class is one of the four, and it is the fallback exactly for levels other than low, medium and high. |
| Widget.LevelsDistinct | static/src/script.js:138-158 | The three levels get three different emojis and classes. |
| Widget.QuickSummary | static/src/script.js:160-178 | No result gives the empty summary. |
| Widget.SummaryShape | static/src/script.js:160-178 | The summary has one part per checked entry, joined by exactly one bullet fewer; it is empty exactly when nothing was checked. |
| Widget.BulletsInJoin | static/src/script.js:177 | Joining bullet-free parts puts one bullet between neighbours. |
| Widget.JoinStartsWithFirst | static/src/script.js:177 | A joined summary starts with its first part. |
| Widget.JoinEndsWithLast | static/src/script.js:177 | A joined summary ends with its last part. |
| Widget.DisposableLeads | static/src/script.js:164-166 | A checked disposable entry leads the summary, with a cross when disposable and a check mark otherwise. |
| Widget.EducationalLast | static/src/script.js:173-175 | An educational domain closes the summary with "Educational: ✅"; otherwise no part mentions it. |
| Widget.OnlyDisposableSummary | static/src/script.js:160-178 | With only the disposable entry checked, the summary is that one part. |
| Widget.Tick | static/src/script.js:196-206 | The animation moves exactly while loading with a spinner shown. It then shows the frame at the index, with the matching dots when there is text, and advances the index modulo ten. |
| Widget.Ticks | static/src/script.js:196-206 | The frame index stays in range across ticks. |
| Widget.TicksAdvance | static/src/script.js:196-206 | After `n` moving ticks the index has advanced by `n` modulo ten. |
| Widget.EllipsisRestartsAtWrap | static/src/script.js:192-205 | When the spinner wraps from the tenth frame to the first, the dots jump from one dot back to none, because ten is not a multiple of four. |

## Left out

- The entropy test (`calcEntropy` > 3.5) and Unicode's letter, mark, digit, case and script tables are parameters (`EmailPattern.Oracles`). They are pinned only on ASCII (`Sound`), so floating-point entropy is not modelled.
- EmailPattern.TooManySpecialChars: the special-rune share is compared with the configured ratio exactly. The source divides in `float64`, and a quotient that rounds down onto the limit is not modelled. A NaN or infinite ratio is not modelled either.
- Analyzer: scores are exact integers in hundredths. The source sums `float64` values, and rounding at the 0.4 and 0.7 level boundaries is not modelled.
- Checker.Check: the five sub-checks run one after the other. `OrderIrrelevant` shows that their order does not matter, but their `WaitGroup` concurrency and the request timeout are not modelled.
- Cloudflare.GetDNSValidation: reports the error of some failed lookup. The source's `errgroup` reports whichever failure comes first in time, which the model cannot know.
- `isParkedDomainNs`, called at dns/cloudflare.go:114, is not part of this model and is a parameter.
- Resolver.GetDNSValidationResult: a caller that finds a flight running for its domain gets that flight's result at once. The `singleflight` waiting, and the DoH semaphore, are not modelled.
- Cli.ProcessConcurrently: the completion order is a parameter. The goroutines, the `WaitGroup`, the buffered result channel and the 100-slot semaphore are not modelled.
- Request creation errors, response-body close errors, timeouts and context cancellation in the HTTP fetchers are left out. They only add error paths of the same shape.
- Fetchers.FetchTrancoList: `scanner.Err` is ignored, as in the source. `bufio.Scanner`'s token-size limit is not modelled for any reader.
- HttpLog.PortionWrite: `written` is an unbounded integer, so `int64` overflow is not modelled.
- Error texts print the `Atoi` and `ParseTime` errors through parameters. Go's `%q` quoting inside them is not modelled.
- Header-name comparisons fold ASCII case only. `strings.EqualFold`'s Unicode folding is not modelled.
- HttpExt.Write: the underlying writer is assumed to accept every byte, so a write reports the full length and no error. Its errors and short writes are not modelled. `io.MultiWriter` stops at the first failing writer, so after such a fault the capture would fall behind the body. The whole-body claims of `ApplyInv`, `RunInv`, `CaptureFollowsContentType`, `Responder.Served` and `HttpLog.ResponseBodyEntry` hold only under this assumption.
- JSON encoding and decoding are parameters (`Responder.Encoder`, `Fetchers.DecodeItems`, `Resolver.Codec`).
- Logging output, the correlation and request IDs, latency, metrics and the response-header log map are left out. Only what decides the log content is modelled.
- Widget: the page beyond the body's children, `formatJSON`, `getRiskClass`, the keyboard shortcut, `encodeURIComponent` and `scrollIntoView` are left out. So are the timers: the 3-second notification reset, the 100 ms suggestion delay and the animation interval.
- Widget: a response body that is not a JSON object is not modelled.
- The application wiring is left out: `api/api.go`, `pkg/app`, `pkg/log`, the outbound client wrapper, `HTTPServer.Run` and graceful shutdown. It only connects the modelled parts to real listeners, timers and signals.

## Findings

| source | as written | input that shows it | evidently intended | confidence | as-written member | corrected member |
|---|---|---|---|---|---|---|
| emailpattern/emailpattern.go:142-170 | `lastLetterPos` is the byte offset that `range` yields, but it is used as an index into `[]rune(s)`. Past any multi-byte rune the digit tail is never split off. | `дмитрий19842@example.com`: the last letter is at byte 12, so `digitStart` is 13, past the 12 runes. The name is not split, fails the name test, and the address is flagged random. | Split at the rune after the last letter: `дмитрий` + `19842`. Both parts are valid name parts and the address is not flagged random. | not executed | EmailPatternExamples.DmitriyCheck | EmailPattern.SplitLettersAndTrailingNumbers |
| static/src/script.js:138-145 | `emojis[riskLevel] \|\| '❓'` reads a plain object literal, so a level naming an `Object.prototype` member returns that member. | `getRiskEmoji("toString")` returns the inherited function instead of `❓`. | Only own keys match; every other level gets `❓`. | not executed | Widget.RiskEmojiAsWritten | Widget.RiskEmoji |
| static/src/script.js:151-158 | `classes[riskLevel] \|\| 'border-gray-500'` has the same plain-object lookup. | `getBorderClass("constructor")` returns the `Object` constructor instead of `border-gray-500`. | Only own keys match; every other level gets `border-gray-500`. | not executed | Widget.BorderClassAsWritten | Widget.BorderClass |
