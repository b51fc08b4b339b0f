# Oracle driver adapter of usql, modelled in Dafny

usql is a command-line SQL client. Its Oracle adapter, `drivers/oracle/oracle.go`, registers a set of functions under the driver name `ora`:

- `V`: the server version.
- `U`: the current user.
- `ChPw`: changes a password.
- `E`: splits a driver error into an Oracle code and a message.
- `PwErr`: recognises the "invalid username/password" error.
- `Cols`: normalises all-caps column names to lower case.
- `P`: strips the statement terminator before the statement is classified.

This project models those functions and proves what they promise.

Files:

- `wrappers.dfy`: `Option` and `Result`.
- `gostrings.dfy`: the parts of Go's `strings` package the adapter calls, on ASCII text.
  - `strings.ToLower`.
  - `strings.TrimSpace`.
  - `strings.LastIndex`.
  - `strings.Index` with a one-character separator.
  - A right trim, as used by the terminator pattern.
- `gofmt.dfy`: `fmt.Sprintf("%05d", n)`, together with a reader for the digits it prints. The reader exists to state round trips.
- `oracle.dfy`: the adapter.
  - The connection is a class `DB`. Its answers to queries and statements are fixed functions. It keeps a log of the statements executed on it.
  - `E` and `Cols` are methods, because the code reassigns locals step by step (`E`) or overwrites a list in place (`Cols`). Each is proved equal to a specification function, and the properties are proved about that function.
  - The regular expressions `allCapsRE` and `endRE` are written out as predicates and functions.

Statement stripping keeps the white space before a terminating `;`. The pattern `;?\s*$` matches only the `;` and the white space after it, so `"SELECT 1 ;  "` gives `"SELECT 1 "`, not `"SELECT 1"`.

How line 52 is modelled:

- Line 52 (`code = msg[i:j]`) runs only when the error has no structured code.
- It slices the message left after the ':' using offsets `i` and `j`, which were computed before the message was shortened.
- The model keeps it exactly as written, as a `Decoded` value or `SlicePanic` when Go's slice bounds fail.
- Two example lemmas show what it does:
  - for `"...ORA-00001: unique constraint violated"` the code is `"ique c"`;
  - for `"ociStmtExecute: ORA-00001: unique"` the slice panics.

## Model

| member | source | states |
|---|---|---|
| Oracle.V | drivers/oracle/oracle.go:20-27 | on success: no error, and the result is "Oracle " followed by exactly the scanned version; on failure: the scanned value and the error unchanged |
| Oracle.U | drivers/oracle/oracle.go:28-32 | the result is what scanning `select user from dual` left, value and error alike |
| Oracle.ChangePasswordStatement | drivers/oracle/oracle.go:34 | the statement is "alter user ", then the user, then " IDENTIFIED BY ", then the new password; the names are pasted in unquoted, and each part sits at its own position |
| Oracle.DB.Exec | drivers/oracle/oracle.go:34 | executing a statement appends it to the connection's log and returns that statement's error |
| Oracle.ChPw | drivers/oracle/oracle.go:33-36 | exactly one statement, the password change, is added to the log; its error is returned; the old password plays no part |
| Oracle.FormatCode | drivers/oracle/oracle.go:43 | a structured code is rendered as "ORA-" followed by at least five characters |
| Oracle.FormatCodeWidth | drivers/oracle/oracle.go:43 | a code from 0 to 99999 gives "ORA-" and exactly five digits |
| Oracle.FormatCodeRoundTrip | drivers/oracle/oracle.go:43 | the text after "ORA-" is a signed decimal that reads back as the code, for every integer |
| Oracle.FormatCodeExample | drivers/oracle/oracle.go:43 | code 1017 is rendered "ORA-01017" |
| GoFmt.Pad05 | drivers/oracle/oracle.go:43 | `%05d` always gives at least five characters; its digits and padding are fixed by `Pad05RoundTrip`, `Pad05Width` and `Pad05Wide` |
| GoFmt.Pad05RoundTrip | drivers/oracle/oracle.go:43 | `%05d` prints an optional '-' then digits only, and reading that back gives the number |
| GoFmt.Pad05Injective | drivers/oracle/oracle.go:43 | distinct codes are rendered differently |
| GoFmt.Pad05Width | drivers/oracle/oracle.go:43 | numbers below 100000 are padded with zeros to exactly five digits |
| GoFmt.Pad05Wide | drivers/oracle/oracle.go:43 | numbers of six or more digits are printed in full, without padding |
| GoFmt.DecimalValue | drivers/oracle/oracle.go:43 | the decimal digits printed for a number read back as that number |
| Oracle.StructuredCode | drivers/oracle/oracle.go:38-44 | the code before decoding is "" exactly when the error has no `Code()` method |
| Oracle.DecodeError | drivers/oracle/oracle.go:37-58 | no contract of its own; the definition is the model of `E`'s outcome: the last "ORA-", the first ':' after it, the structured code, and line 52's slice. `E` is proved equal to it, and `DecodeNoMarker`, `DecodeMarkerNoColon` and `DecodeMarkerColon` describe its cases |
| Oracle.DecodeAfterColon | drivers/oracle/oracle.go:49-57 | no contract of its own; the definition is the model of the branch with a ':': the message is the trimmed text after the ':', and without a structured code the slice `[i..j]` of that text, or `SlicePanic` when Go's bounds `i <= j <= length` fail |
| Oracle.E | drivers/oracle/oracle.go:37-58 | reassigning the code and message step by step gives exactly `DecodeError` of the error, including the panic at line 52 |
| Oracle.DecodeStructuredCode | drivers/oracle/oracle.go:40-51 | with a `Code()` method the fallback at line 52 never runs: nothing panics and the code is "ORA-" plus the code as `%05d` |
| Oracle.DecodeInvalidCredentials | drivers/oracle/oracle.go:40-44 | an error with code 1017 decodes to the code "ORA-01017" |
| Oracle.DecodeNoMarker | drivers/oracle/oracle.go:46-57 | with no "ORA-" in the text, the message is the whole text trimmed |
| Oracle.DecodeMarkerNoColon | drivers/oracle/oracle.go:46-57 | with no ':' after the last "ORA-", the message is the text from that "ORA-" on, trimmed |
| Oracle.DecodeMarkerColon | drivers/oracle/oracle.go:46-57 | with a ':' after the last "ORA-", the message is the trimmed text after the first such ':'; without a structured code, the code is that text sliced at `[i..j]` (i = where the marker starts, j = the colon's offset from the marker), and decoding panics exactly when `i <= j <= length` fails |
| Oracle.DecodeOraText | drivers/oracle/oracle.go:46-57 | for text of the form prefix, "ORA-", number, ':', message (no ':' in the number, no further "ORA-" after the marker): the message is the trimmed message, and the code is the structured one or the line-52 slice of the message; a panic when that slice is out of range |
| Oracle.DecodeUniqueViolationText | drivers/oracle/oracle.go:46-57 | "...ORA-00001: unique constraint violated" without a structured code decodes to the message "unique constraint violated", with the code "ique c" that line 52 slices out |
| Oracle.DecodePanicsOnLongPrefix | drivers/oracle/oracle.go:52 | "ociStmtExecute: ORA-00001: unique" without a structured code makes the slice at line 52 panic |
| Oracle.LastMarkerIsLastIndex | drivers/oracle/oracle.go:46 | an "ORA-" with no later "ORA-" is the one `strings.LastIndex` finds |
| Oracle.FirstColonIsIndex | drivers/oracle/oracle.go:48 | the first ':' from the marker on is the one `strings.Index` finds, at its offset from the marker |
| Oracle.NoColonIsNoIndex | drivers/oracle/oracle.go:48 | with no ':' from the marker on, `strings.Index` reports -1 |
| GoStrings.LastIndex | drivers/oracle/oracle.go:46 | the result is -1 or a position where the marker occurs, and the marker occurs at no later position |
| GoStrings.IndexChar | drivers/oracle/oracle.go:48 | the result is -1 or a position holding the character, and no earlier position holds it (no position at all when -1) |
| GoStrings.IsSpace | drivers/oracle/oracle.go:57 | no contract of its own; the definition is the model of the ASCII white space `strings.TrimSpace` removes: space, \t, \n, \v, \f and \r |
| GoStrings.TrimSpace | drivers/oracle/oracle.go:57 | the trimmed message is no longer than the input, and neither starts nor ends with white space |
| GoStrings.TrimSpaceIsInfix | drivers/oracle/oracle.go:57 | the trimmed message is a contiguous part of the input with only white space on either side of it |
| Oracle.PwErr | drivers/oracle/oracle.go:59-66 | true exactly when the error has a `Code()` method and it returns 1017; false for every error without one |
| Oracle.PwErrIsDecodedCode | drivers/oracle/oracle.go:59-66 | for every error on which `E` does not panic, `PwErr` holds exactly when `E` decodes the code "ORA-01017"; the two accessors agree |
| Oracle.UnstructuredCodeIsNotInvalidCredentials | drivers/oracle/oracle.go:51-53 | without a structured code, `E` never yields "ORA-01017": the text line 52 slices out lies after the last "ORA-", and so cannot start with one |
| Oracle.AllCaps | drivers/oracle/oracle.go:15 | no contract of its own; the definition is the model of `^[A-Z][A-Z0-9_]+$`: at least two characters, a capital first, then only capitals, digits and '_' |
| Oracle.NormalizeName | drivers/oracle/oracle.go:74-75 | no contract of its own; the definition is the model of one loop step: an all-caps name is lower-cased, any other name is kept. `NormalizeColumnsAt` states it as an if-and-only-if |
| Oracle.Cols | drivers/oracle/oracle.go:67-80 | a failure of `Columns()` is returned with its error unchanged; otherwise the array overwritten in place holds exactly the normalised names |
| Oracle.NormalizeColumns | drivers/oracle/oracle.go:73-77 | the result has the same length as the input, and each position holds that name normalised |
| Oracle.NormalizeColumnsAt | drivers/oracle/oracle.go:73-77 | position k changes exactly when the name matches `^[A-Z][A-Z0-9_]+$`, and then it becomes that name lower-cased |
| Oracle.LoweredIsNotAllCaps | drivers/oracle/oracle.go:15 | an all-caps name, once lower-cased, differs from the original and no longer matches the pattern |
| Oracle.NormalizeColumnsIdempotent | drivers/oracle/oracle.go:73-77 | normalising the normalised names changes nothing |
| Oracle.NormalizeNameExamples | drivers/oracle/oracle.go:15 | "USER_ID" becomes "user_id"; "UserId", "1X" and "X" stay as they are |
| GoStrings.ToLower | drivers/oracle/oracle.go:75 | lower-casing keeps the length and maps each capital to its small letter, leaving every other character alone |
| GoStrings.TrimRightWhile | drivers/oracle/oracle.go:82 | the result is a prefix of the input, everything removed is white space, and the result does not end in white space |
| Oracle.IsRegexSpace | drivers/oracle/oracle.go:16 | no contract of its own; the definition is the model of `\s` in Go's regular expressions: \t, \n, \f, \r and space, without \v |
| Oracle.IsTerminatorTail | drivers/oracle/oracle.go:16 | no contract of its own; the definition is the model of the language of `;?\s*`: white space only, or one ';' followed by white space only |
| Oracle.StripTerminator | drivers/oracle/oracle.go:82 | the stripped statement is a prefix of the input |
| Oracle.StripTerminatorLeftmostMatch | drivers/oracle/oracle.go:16 | the removed suffix matches `;?\s*`, and no suffix starting further left does, so it is the match `;?\s*$` finds |
| Oracle.StripTerminatorOneSemicolon | drivers/oracle/oracle.go:16 | at most one ';' is removed, and only as the first character removed |
| Oracle.StripTerminatorUnchanged | drivers/oracle/oracle.go:82 | a statement ending in neither ';' nor white space is returned unchanged |
| Oracle.StripTerminatorExamples | drivers/oracle/oracle.go:82 | "SELECT 1 ;  " becomes "SELECT 1 " (the blank before the ';' stays); "a;;" becomes "a;" |
| Oracle.P | drivers/oracle/oracle.go:81-85 | the error is always nil; the returned text is the stripped text, never the original; the type and the query flag are what `QueryExecType` gives for the prefix and the stripped text |

## Left out

- The registry (`drivers.Register`, `drivers.Driver`) and `init`. Registration is a side effect of loading the package; the driver name is kept as the constant `DriverName`.
- `drivers.QueryExecType`. Its source is not part of this model, so `P` takes it as a function parameter.
- `database/sql`, the `gopkg.in/rana/ora.v4` driver and real query execution. The connection's answers are fixed functions of the query text, and `Exec` records the statement it is given.
- A nil error passed to `E`. In Go, `err.Error()` on nil panics at line 38, so the model's `Error` datatype always carries a text.
- A nil error passed to `PwErr`. In Go the type assertion at line 60 fails on nil and line 65 returns false, with no panic. This is the same outcome as for an `Error` whose `code` is `None`, but nil itself has no value in the model.
- Unicode. Text is ASCII, one character per byte, so Go's byte offsets are sequence indices. What this leaves out:
  - `strings.TrimSpace` also removes U+0085 and U+00A0 and other Unicode white space;
  - `strings.ToLower` also lower-cases non-ASCII letters.
- A corrected code extraction at line 52, one that would take the "prefix is the code". The model keeps the code as written, including its panic.
- SQL-injection safety of the `ChPw` statement. The model only states that the user name and the password are pasted in unquoted.
