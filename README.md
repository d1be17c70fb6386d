# Connection-string test generator, modelled in Dafny

`core/spec_uri_test_generator.go` turns connection-string test vectors into
Go test source. Each vector carries a description, a URI, a validity flag,
hosts, an optional auth record and options. The program lists a directory of
YAML files. For every `.yml` file it writes one `TestParseURI_<name>` function
per vector into an in-memory buffer. It then pretty-prints the buffer with
`format.Source`.

The model has two layers:

- **Pure layer.**
  - `Emitter.Emit` maps one vector to the ordered list of checks its test
    performs.
  - `Render` gives the exact Go lines of each check.
  - `Sanitizer`, `Literals` and `Loader` model the string helpers and the
    directory filter.
- **Imperative layer.** `Generation.Generator` is a class whose `buf` field
  only grows, as the `bytes.Buffer` does in the source. Its methods mirror
  `printf`, `printlnf`, `printIfNotEqual`, `printStringIfNotEqual`, the loop
  of `generateFromFile`, `generate` and `format`. The printing primitives are
  proved to append exactly their `Render` text (`Line`, `IfNotEqual`,
  `StringIfNotEqual`, `Preamble`), and `Format` to return the pretty-printed or
  raw buffer. The writers from `WriteStmt` up to `Generate` are proved to append
  exactly the rendering of what `Emit` computes. Like `Emit`, the class
  reads a missing auth record as a zero-valued one at the database check; the
  source as written aborts there instead, which `Emitter.EmitAsWritten` models
  (see Findings).

The source's external dependencies become parameters:

- The Go map iteration order is `order`.
- `%q` quoting is `quote`.
- `format.Source` is `pretty`.
- The directory listing is `listing`, and the decoded files are `files`.

Files:

- `wrappers.dfy`: Option and Result.
- `strings.dfy`: single-character replacement, counting, decimal rendering and parsing.
- `sanitizer.dfy`: replaceCharacters and the test-name sanitizer.
- `literals.dfy`: NUL escaping, quote escaping, host.String.
- `emitter.dfy`: vectors to checks, and the properties of that mapping.
- `render.dfy`: checks to Go text.
- `loader.dfy`: path.Ext and the `.yml` filter.
- `generator.dfy`: the Generator class.

## Model

| member | source | states |
|---|---|---|
| Sanitizer.ReplacedAfter | core/spec_uri_test_generator.go:75-81 | The text after the first n passes of the loop: pass i replaces every `old[i]` by `new[min(i, |new|-1)]`. Its meaning is stated by ReplacedAfterPointwise and the lemmas below. |
| Sanitizer.Replaced | core/spec_uri_test_generator.go:74-84 | The result of replaceCharacters: all passes. Characterised by ReplacedMatchesTranslate and KeepsOthers. |
| Sanitizer.ReplaceCharacters | core/spec_uri_test_generator.go:74-84 | The loop's result is the fold `Replaced`: each character of `old` is replaced in turn by the current character of `new`, and the index into `new` stops at its last character. |
| Sanitizer.ReplacedMatchesTranslate | core/spec_uri_test_generator.go:74-84 | When the character each pass writes does not occur later in `old` (so no later pass replaces it), the fold equals a pointwise translation. The first occurrence of a character in `old` picks `new` at that index, clamped to the last. The length is kept. |
| Sanitizer.KeepsOthers | core/spec_uri_test_generator.go:74-84 | A character that is not in `old` is left where it was, whatever `new` is. |
| Sanitizer.Sanitize | core/spec_uri_test_generator.go:132 | The name suffix has the description's length. Every space, apostrophe, hyphen, comma and parenthesis becomes `_`, and every other character is kept. No disallowed character remains. |
| Sanitizer.SanitizeKeepsClean | core/spec_uri_test_generator.go:132 | A description without disallowed characters is used unchanged. |
| Sanitizer.SanitizeIdempotent | core/spec_uri_test_generator.go:132 | Sanitizing twice is sanitizing once. |
| Strings.ReplaceChar | core/spec_uri_test_generator.go:87 | strings.Replace of one character by a string. The length grows by `(|rep|-1)` per occurrence. The character is gone when `rep` lacks it. Input without it is unchanged. The result draws only on the input and `rep`. |
| Strings.ReplaceCharAppend | core/spec_uri_test_generator.go:87 | strings.Replace of one character distributes over concatenation, for all inputs. |
| Strings.UnescapeReplaceChar | core/spec_uri_test_generator.go:87 | When the escape's first character does not occur in the input, undoing the replacement gives the input back. |
| Literals.ReplaceNul | core/spec_uri_test_generator.go:86-88 | No NUL remains, the length grows by 3 per NUL, and a NUL-free string is unchanged. That each NUL becomes `\x00` with everything else in place is ReplaceNulPerCharacter. |
| Literals.ReplaceNulPerCharacter | core/spec_uri_test_generator.go:86-88 | For all inputs: a NUL becomes the four characters `\x00`, any other character stays, and the escape of a concatenation is the concatenation of the escapes. |
| Literals.ReplaceNulRoundTrip | core/spec_uri_test_generator.go:86-88 | For backslash-free input, reading `\x00` back as NUL recovers the original. |
| Literals.ReplaceNulConflatesBackslash | core/spec_uri_test_generator.go:86-88 | The literal text `\x00` and a real NUL are written alike, so the escape is not injective on all inputs. |
| Literals.EscapeQuotes | core/spec_uri_test_generator.go:63-66 | The length grows by one per double quote, and text without quotes is unchanged. That each quote gains a backslash right before it with nothing else moved is EscapeQuotesPerCharacter. |
| Literals.EscapeQuotesPerCharacter | core/spec_uri_test_generator.go:63-66 | For all inputs: a double quote becomes backslash and quote, any other character stays, and the escape of a concatenation is the concatenation of the escapes. |
| Literals.EscapeQuotesRoundTrip | core/spec_uri_test_generator.go:63-66 | For backslash-free input, dropping the added backslashes recovers the original. |
| Literals.EscapedQuotesArePreceded | core/spec_uri_test_generator.go:63-66 | Every double quote in the escaped text comes right after a backslash. |
| Literals.EscapedQuoteIsEscaped | core/spec_uri_test_generator.go:63-66 | For backslash-free input, the backslash before each quote is not itself preceded by a backslash, so the quote is escaped and cannot close the Go string literal. |
| Literals.HostString | core/spec_uri_test_generator.go:218-226 | host.String; its contract is carried by HostStringParts and NoAuthVectorHost. |
| Literals.HostStringParts | core/spec_uri_test_generator.go:218-227 | The host name sits in the result. It is bracketed exactly for `ip_literal`. A port is appended exactly when it is nonzero, after a colon, and its digits parse back to that port. |
| Strings.DecimalRoundTrip | core/spec_uri_test_generator.go:224 | `%d` rendering of an integer parses back to the same integer, negatives included. |
| Strings.Decimal | core/spec_uri_test_generator.go:224 | `%d` of an integer: non-empty, led by `-` exactly for negatives, with no colon or quote. DecimalRoundTrip gives the inverse. |
| Loader.Ext | core/spec_uri_test_generator.go:108 | path.Ext is empty, or a dot-led suffix of the path that contains no slash. |
| Loader.ExtIsYml | core/spec_uri_test_generator.go:108 | The extension is `.yml` exactly when the name ends in `.yml`. |
| Loader.IsTestFile | core/spec_uri_test_generator.go:108 | The condition of line 108, negated: not a directory and extension `.yml`. Used by TestFiles' contract. |
| Loader.TestFiles | core/spec_uri_test_generator.go:107-113 | A name is passed on iff some entry with that name is not a directory and has the `.yml` extension. There are no more names than entries. |
| Loader.TestFilesAppend | core/spec_uri_test_generator.go:107-113 | Listing order is kept: filtering a concatenated listing concatenates the filtered parts. |
| Emitter.Emit | core/spec_uri_test_generator.go:130-195 | The checks one vector's test performs, with the zero-valued-auth reading of line 169. Its contract is carried by the Emit lemmas below (EmitInvalid, EmitFailsOnlyOnMistypedOption, EmitValidLayout, EmitHostsInOrder, EmitCredentials, EmitOptionCoverage, EmitPropertiesCovered, EmitIgnoresUnknownKeys). |
| Emitter.EmitAsWritten | core/spec_uri_test_generator.go:158-169 | Line 169 as written: a valid vector without auth aborts on the nil record; otherwise as Emit. Stated by NoAuthVectorAbortsAsWritten and NilAuthAbortsAsWritten. |
| Emitter.EmitInvalid | core/spec_uri_test_generator.go:134-142 | An invalid vector's test only expects ParseURI to fail. |
| Emitter.EmitFailsOnlyOnMistypedOption | core/spec_uri_test_generator.go:172-192 | Emission aborts iff the vector is valid, has options, and one of the four known options has the wrong type. The abort names a mistyped option, the first in the order authmechanism, authmechanismproperties, replicaset, wtimeoutms. |
| Emitter.EmitValidLayout | core/spec_uri_test_generator.go:144-192 | A valid vector's test has 5 + (number of hosts) checks that read no option field, followed only by option-field comparisons; these exist exactly when the option mapping is non-empty. |
| Emitter.PrefixHosts | core/spec_uri_test_generator.go:144-155 | The parse check comes first, then the host count, then host i at position 2+i. |
| Emitter.PrefixCredentials | core/spec_uri_test_generator.go:157-169 | After the hosts come username and password (or username `""` and the unset-password check), then the database. Username and database are each compared once, the password once iff auth is present, and the unset-password check appears iff auth is absent. |
| Emitter.PrefixNeverComparesOptions | core/spec_uri_test_generator.go:144-169 | The checks before the option block never compare an option field. |
| Emitter.EmitHostsInOrder | core/spec_uri_test_generator.go:149-155 | Host i is compared at position 2+i, with the host.String text. Each host index is compared exactly once, and no other index is compared. |
| Emitter.EmitCredentials | core/spec_uri_test_generator.go:157-169 | Username is checked once, with `""` when there is no auth. Password is checked once iff auth is present. The password-set flag is checked iff auth is absent. Database is checked exactly once, with the escaped auth database, or `""` without auth. |
| Emitter.EmitOptionsAbsent | core/spec_uri_test_generator.go:172 | An empty options mapping yields no option check at all. |
| Emitter.OptionBlockShape | core/spec_uri_test_generator.go:172-192 | A non-empty option block that emits is well typed. It is the authmechanism check, then one check per property in iteration order, then the replicaset check, then the optional timeout. |
| Emitter.EmitOptionCoverage | core/spec_uri_test_generator.go:172-192 | With options present, authmechanism and replicaset are each checked exactly once, with the escaped value or `""`. wtimeoutms is checked once iff present, as a millisecond duration, and otherwise never. |
| Emitter.OptionBlockCoverage | core/spec_uri_test_generator.go:172-192 | Within the option block itself, authmechanism and replicaset are compared once each with their expected values, and wtimeoutms once iff present, as a duration. |
| Emitter.PropertyCount | core/spec_uri_test_generator.go:180-182 | When the order lists every property key once, each key of the mapping is compared exactly once, with its escaped value, and no other key is compared. |
| Emitter.OptionBlockProperty | core/spec_uri_test_generator.go:178-182 | Within the option block, a property key is compared once, with its escaped value, iff the properties mapping holds it. |
| Emitter.EmitPropertiesCovered | core/spec_uri_test_generator.go:177-182 | Each authmechanismproperties key is checked exactly once, with its escaped value. Keys not in the mapping are never checked. |
| Emitter.EmitIgnoresUnknownKeys | core/spec_uri_test_generator.go:172-192 | Options other than the four known keys do not change the test, beyond making the mapping non-empty. |
| Emitter.NoAuthVectorBody | core/spec_uri_test_generator.go:144-169 | For "Valid host, no auth" on localhost:27017, the test is the parse, a count of 1, host `localhost:27017`, username `""`, password not set and database `""`. |
| Emitter.NoAuthVectorHost | core/spec_uri_test_generator.go:218-226 | The host `localhost` with port 27017 renders as `localhost:27017`. |
| Emitter.TimeoutVectorOptions | core/spec_uri_test_generator.go:172-192 | `{wtimeoutms: 5000}` yields three option checks: authmechanism `""`, replicaset `""` and a 5000 ms duration. |
| Emitter.NoAuthVectorAbortsAsWritten | core/spec_uri_test_generator.go:169 | As written, the no-auth vector aborts on the nil auth record. |
| Emitter.NilAuthAbortsAsWritten | core/spec_uri_test_generator.go:158-169 | As written, every valid vector without auth aborts, although its intended test (username `""`, password not set, database `""`) is well defined. |
| Render.IfNotEqual | core/spec_uri_test_generator.go:61-68 | The three Go lines printIfNotEqual writes. Appended by Generator.PrintIfNotEqual. |
| Render.StringIfNotEqual | core/spec_uri_test_generator.go:70-72 | The comparison with the expected value wrapped in double quotes. Appended by Generator.PrintStringIfNotEqual. |
| Render.RenderStmt | core/spec_uri_test_generator.go:136-190 | The Go lines of each kind of check. Generator.WriteStmt is proved to append exactly this text. |
| Render.Header | core/spec_uri_test_generator.go:131-132 | The blank lines and signature opening a test. Appended by Generator.WriteHeader. |
| Render.RenderTest | core/spec_uri_test_generator.go:131-194 | A whole test function: header, checks, closing brace. Generator.GenerateTest is proved to append exactly this text. |
| Render.HostExprsDistinct | core/spec_uri_test_generator.go:153-154 | Different host indices give different `uri.Hosts[i]` expressions. |
| Generation.Generator.constructor | core/spec_uri_test_generator.go:36-38 | A new generator starts with an empty buffer. |
| Generation.Generator.Printf | core/spec_uri_test_generator.go:53-55 | Appends the formatted text. |
| Generation.Generator.Printlnf | core/spec_uri_test_generator.go:57-59 | Appends the formatted text and a newline. |
| Generation.Generator.PrintIfNotEqual | core/spec_uri_test_generator.go:61-68 | Appends the three-line comparison, with quotes escaped in its failure message. |
| Generation.Generator.PrintStringIfNotEqual | core/spec_uri_test_generator.go:70-72 | Appends the comparison against the double-quoted expected string. |
| Generation.Generator.Format | core/spec_uri_test_generator.go:41-51 | Returns the pretty-printed buffer, or the raw buffer when pretty-printing fails. |
| Generation.Generator.WritePreamble | core/spec_uri_test_generator.go:95-98 | Appends the package clause and the three imports. |
| Generation.Generator.WriteHeader | core/spec_uri_test_generator.go:131-132 | Appends two blank lines and the signature of the test function named after the sanitized description. |
| Generation.Generator.WriteExpectError | core/spec_uri_test_generator.go:136-139 | Appends the check that parsing the quoted URI fails. |
| Generation.Generator.WriteExpectOk | core/spec_uri_test_generator.go:144-147 | Appends the check that parsing the quoted URI succeeds. |
| Generation.Generator.WriteHostCount | core/spec_uri_test_generator.go:150-152 | Appends the check of the host count, with the count in decimal. |
| Generation.Generator.WritePasswordNotSet | core/spec_uri_test_generator.go:160-162 | Appends the check that no password was parsed. |
| Generation.Generator.WriteStmt | core/spec_uri_test_generator.go:136-190 | The printing calls for any one check append exactly that check's Go text. |
| Generation.Generator.WriteHosts | core/spec_uri_test_generator.go:153-155 | The host loop appends one comparison per host, in list order. |
| Generation.Generator.WriteCredentials | core/spec_uri_test_generator.go:157-166 | Appends the credential checks of the auth record, or of its absence. |
| Generation.Generator.WriteDatabase | core/spec_uri_test_generator.go:168-169 | Appends the database comparison with the escaped database of the auth record. Without a record it follows the corrected reading and compares with `""`, where the source as written dereferences nil. |
| Generation.Generator.WritePrefix | core/spec_uri_test_generator.go:144-169 | Appends the rendering of the vector's fixed prefix of checks. |
| Generation.Generator.WriteProperties | core/spec_uri_test_generator.go:177-182 | The property loop visits every key exactly once, in some order. It appends those checks in the order it visits them. |
| Generation.Generator.WriteStringOption | core/spec_uri_test_generator.go:173-188 | For authmechanism or replicaset: appends the comparison with the escaped string value, or with `""` when absent, and panics when the value is not a string. |
| Generation.Generator.WriteTimeout | core/spec_uri_test_generator.go:189-191 | Appends the duration comparison when wtimeoutms is present, panics when it is not an integer, and appends nothing when it is absent. |
| Generation.Generator.WriteOptions | core/spec_uri_test_generator.go:172-192 | Appends the rendered option block. Otherwise it panics exactly where the option block fails, on the first mistyped option. |
| Generation.Generator.GenerateTest | core/spec_uri_test_generator.go:130-195 | For one vector, either appends exactly the rendered test `Emit` gives for the visited order, or reports the panic that `Emit` reports. The buffer only grows. |
| Generation.Generator.GenerateTests | core/spec_uri_test_generator.go:130-195 | Writes the vectors' tests in order. Either all are emitted and the buffer grows by their texts, or it stops at the first vector whose emission fails. |
| Generation.Generator.GenerateFromFile | core/spec_uri_test_generator.go:118-196 | A file missing from the decoded files is Unreadable. Otherwise it writes the tests of the file's vectors in file order: either every vector is emitted and the buffer grows by their texts, or it stops at the first vector whose emission fails, after emitting all earlier ones, and reports that vector's panic. |
| Generation.Generator.GenerateAll | core/spec_uri_test_generator.go:107-113 | Runs generateFromFile on the `.yml` files of the listing, in listing order. On success the buffer grows by the tests of all their vectors. Otherwise it names a test file that is unreadable, or one holding a vector that panics. |
| Generation.Generator.Generate | core/spec_uri_test_generator.go:94-116 | Appends the package clause and imports, then every `.yml` file's tests in listing order, and returns the formatted buffer. An unreadable listing or file, and a panic, end the run with the reason. |

## Left out

- `main` (lines 18-32) is not part of this model. That covers the log setup, the "Code generated" header line and writing the output file. `Generate` works on whatever the buffer already holds.
- Directory and file I/O, and YAML decoding, are inputs. The listing is `listing`, which is None when ReadDir fails. The decoded vectors are `files`. A file that cannot be read or decoded is simply missing from `files`. `path.Join` with the test directory is folded into the file name. The log messages of `log.Fatalf` are reduced to the `Fatal` reason.
- `format.Source` is the parameter `pretty`. The two warning log lines of `format` are not modelled.
- `%q` quoting of the URI is the parameter `quote`. Its escaping rules are not modelled.
- `%v` of authmechanismproperties keys and values: the mapping holds already-rendered strings.
- The `Warning` field is not modelled, because the generator never reads it.
- Go map iteration order is unspecified. `Emit` takes the order as a parameter. `WriteProperties` picks keys arbitrarily and returns the order it used as a ghost result.
- Go's strings are byte sequences, and `replaceCharacters` indexes `old` and `new` by byte. The model works on characters. They agree for the ASCII sets the source passes.
- Sanitizer.ReplaceCharacters: requires `new` to be non-empty when `old` is non-empty, because Go would index `new[0]` out of range there. The only call passes `"_"`.
- Generation.Generator.WriteDatabase: implements the zero-valued-auth reading of line 169, so a valid vector without auth gets a database check against `""`; the source as written dereferences the nil record and panics there. `Emitter.EmitAsWritten` is the as-written counterpart, and the whole class (WriteDatabase, WritePrefix, GenerateTest, GenerateTests, GenerateFromFile, GenerateAll, Generate) follows the corrected `Emit`.
- Generation.Generator.GenerateTest: on a panic it promises only that the buffer grew. The Go process dies at that point and the partial test is never written out.
- `EscapeQuotes` and `ReplaceNul` do not escape backslashes, as in the source. `ReplaceNulConflatesBackslash` shows the consequence. The round trips and `EscapedQuoteIsEscaped` are stated for backslash-free text: a backslash right before a quote in the input yields `\\"`, where the quote does close the Go string literal.
- Option values of other YAML types under unknown keys are ignored, as in the source. Under the four known keys a wrong type is the `WrongType` panic. The Go runtime's panic message is not modelled.

## Findings

| source | as written | input that shows it | evidently intended | confidence | as-written member | corrected member |
|---|---|---|---|---|---|---|
| core/spec_uri_test_generator.go:169 | The database check reads `testDef.Auth.DB` after line 158 has taken the branch where `testDef.Auth` is nil, which dereferences a nil pointer. | Any valid vector without auth, e.g. "Valid host, no auth" (`NoAuthVector`). | Use a zero-valued auth record, so the test expects database `""`. | medium, not executed | Emitter.NoAuthVectorAbortsAsWritten | Emitter.NoAuthVectorBody |
