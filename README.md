# A verified model of a small Unix shell's command interpreter

The interpreter reads one line at a time. It splits the line into tokens with
a quote-aware lexer: single and double quotes group text, and unquoted spaces
separate tokens. The first token picks one of five builtins (`exit`, `echo`,
`type`, `pwd`, `cd`); any other name is an external program. The interpreter
runs the command: it prints, changes directory, or looks the program up on
`PATH` and runs it as a child process.

The model has seven modules, one per concern of `src/main.rs`:

- `Wrappers`: `Option` and `Result`.
- `Text`: Rust's `char::is_whitespace`, `str::trim`, `str::split` on one
  character and `join`. It also has the subsequence relation used to say that
  the lexer only deletes characters.
- `Decimal`: Rust's `i32::from_str` (an optional sign, one or more ASCII
  digits, a range check) and decimal rendering of integers.
- `Tokenizer`: the lexer. `Step`, `Run` and `Finish` specify it as a fold
  over the characters. `Tokenize` is the imperative loop, with the same
  `continue` branches as the source, proved equal to that fold.
- `Commands`: the command type, the builtin table and `parse`. It includes a
  render function that writes a command back as tokens, and round-trip lemmas
  between the two.
- `Resolver`: `find_cmd`, the first-match search over `PATH`. `FindCmd` is
  the loop with its `break`; `FirstMatch` and `Lookup` specify it.
- `Executor`: `execute` and the read-eval loop's rule for parse errors.
  - The operating system is a `Host` value. It holds the `PATH` and `HOME`
    variables, the current directory, the "exists and is executable" test,
    `set_current_dir` and process spawning.
  - Running a command yields a list of `Effect`s: a line on stdout or
    stderr, a directory change, an attempt to start a child (with the `PATH`
    it was given), or process exit with a code. When the first attempt
    fails, a second one follows by the resolved path, so a list can hold two
    attempts but at most one child.

Two behaviours of the code are easy to miss, and the model keeps both:

- **Trimming the last token.** The last token is trimmed at both ends
  (`trim`), not only at the end. So it can become empty: a bare newline
  tokenizes to `[""]` and parses to an external command with an empty name,
  not to the silent empty-line result. See `Tokenizer.ExampleBareNewline`
  and `Commands.ParseBareNewline`.
- **Only the last token can be empty.** Every earlier token is non-empty.
  See `Tokenizer.TokensNonEmptyButLast`.

## Model

| member | source | states |
|---|---|---|
| Text.IsWhitespace | src/main.rs:254 | no contract of its own: the Unicode White_Space set that `trim` removes, listed code point by code point |
| Text.Trim | src/main.rs:254 | `trim`: the result is the slice of the input left after removing whitespace at both ends only, and it starts and ends with non-whitespace; it is empty exactly when the input is all whitespace; text without whitespace is unchanged |
| Text.TrimBothEnds | src/main.rs:254 | trimming the start and then the end leaves one slice of the input, with only whitespace outside it |
| Text.TrimTrailing | src/main.rs:254 | whitespace after a word, such as a line's newline, is trimmed away and the word is kept whole |
| Text.TrimSubseq | src/main.rs:254 | trimming only deletes characters |
| Text.Split | src/main.rs:199 | `split(':')` yields at least one piece and no piece contains the separator |
| Text.JoinSplit | src/main.rs:199 | joining the pieces of a split with the separator gives the text back |
| Text.SplitJoin | src/main.rs:199 | splitting a join of separator-free pieces gives the pieces back, empty ones included |
| Text.Join | src/main.rs:106 | no contract of its own: `join` with a separator; `Text.JoinSplit`, `Text.SplitJoin` and `Text.JoinCleanWords` state its properties |
| Text.JoinCleanWords | src/main.rs:106 | words joined by single spaces form plain text whose space-separated words are those words |
| Decimal.ShowNat | src/main.rs:69 | the decimal digits of `n` are a non-empty digit string whose value is `n` |
| Decimal.ParseI32 | src/main.rs:69 | `parse::<i32>` fails on the empty string and on a lone sign |
| Decimal.ParseShowInt | src/main.rs:69 | parsing the rendering of any integer gives it back exactly when it fits in `i32`, and fails on overflow |
| Decimal.ParseShowI32 | src/main.rs:67-71 | every `i32` survives rendering and parsing |
| Decimal.ParseRejectsNonDigit | src/main.rs:69 | a character that is not a digit, anywhere except a leading sign, makes `parse::<i32>` fail |
| Decimal.ParseRejectsWord | src/main.rs:68-69 | `abc` is not an `i32`, so `exit abc` carries no code |
| Decimal.ParseDigits | src/main.rs:69 | a run of digits, bare, after `+` or after `-`, parses to its (negated) value exactly when that fits in `i32`, and fails on overflow |
| Tokenizer.Step | src/main.rs:222-251 | one loop iteration: only quotes change the mode; only an unquoted space with a non-empty buffer emits a token (the buffer); inside single quotes everything but `'` is literal, inside double quotes everything but `"` is literal |
| Tokenizer.Run | src/main.rs:222-252 | no contract of its own: the loop as a fold of `Step`; `Tokenizer.RunAppend`, `Tokenizer.RunSubseq` and `Tokenizer.RunKeepsTokensNonEmpty` state its properties |
| Tokenizer.Finish | src/main.rs:253-256 | no contract of its own: a non-empty buffer is trimmed and appended; `Tokenizer.TokensNonEmptyButLast` states its effect |
| Tokenizer.Tokens | src/main.rs:217-257 | no contract of its own: the value of `tokenize`; `Tokenizer.Tokenize` is proved equal to it, and the lemmas below state its properties |
| Tokenizer.Tokenize | src/main.rs:217-257 | the loop computes exactly `Tokens(input)`, and every token but the last is non-empty |
| Tokenizer.RunKeepsTokensNonEmpty | src/main.rs:243-247 | the scan never emits an empty token |
| Tokenizer.TokensNonEmptyButLast | src/main.rs:243-255 | all tokens but the last are non-empty; the last is empty only when its buffer was all whitespace |
| Tokenizer.TokensOfEmptyLine | src/main.rs:253-256 | the empty line has no tokens |
| Tokenizer.SingleQuoted | src/main.rs:224-230 | `'q'` appends `q` verbatim to the current token and drops both quotes |
| Tokenizer.InSingleQuotes | src/main.rs:227-230 | inside single quotes, text up to the closing `'` is appended and the mode returns to unquoted |
| Tokenizer.DoubleQuoted | src/main.rs:232-237 | `"q"` appends `q` verbatim to the current token and drops both quotes |
| Tokenizer.InDoubleQuotes | src/main.rs:235-241 | inside double quotes, text up to the closing `"` is appended, single quotes included |
| Tokenizer.OpenSingleQuote | src/main.rs:224-250 | after a `'` that is never closed, the rest of the line is buffered verbatim |
| Tokenizer.UnterminatedQuote | src/main.rs:222-256 | `w 'q` with the quote left open gives `w` and the trimmed `q`: the opening quote is dropped and the buffered text kept |
| Tokenizer.OpenDoubleQuote | src/main.rs:232-250 | after a `"` that is never closed, the rest of the line is buffered verbatim, single quotes included |
| Tokenizer.UnterminatedDoubleQuote | src/main.rs:222-256 | `w "q` with the quote left open gives `w` and the trimmed `q` |
| Tokenizer.RunUnterminatedQuote | src/main.rs:222-250 | after `w '` the scan has emitted `w` and buffers the rest of the line in single-quote mode |
| Tokenizer.RunUnterminatedDoubleQuote | src/main.rs:222-250 | after `w "` the scan has emitted `w` and buffers the rest of the line in double-quote mode |
| Tokenizer.TokensSubseq | src/main.rs:217-257 | the tokens, concatenated, are a subsequence of the line: the lexer only deletes characters |
| Tokenizer.RunAppend | src/main.rs:222 | scanning a concatenation is scanning each part in turn |
| Tokenizer.RunBare | src/main.rs:250 | unquoted text without quotes or spaces goes into the buffer as is |
| Tokenizer.RunSpace | src/main.rs:243-249 | an unquoted space emits the buffer when it is non-empty and clears it |
| Tokenizer.RunBlank | src/main.rs:243-249 | unquoted spaces with an empty buffer have no effect |
| Tokenizer.RunPlain | src/main.rs:243-250 | on plain text the scan ends with the space-separated words of buffer and text |
| Tokenizer.WordsAfterSpace | src/main.rs:243-248 | a space ends the word in front of it |
| Tokenizer.PlainTokens | src/main.rs:217-257 | on text without quotes or non-space whitespace, the tokens are the non-empty space-separated words |
| Tokenizer.TokensOfJoin | src/main.rs:217-257 | clean words joined by single spaces tokenize back to the words |
| Tokenizer.SpacesCollapse | src/main.rs:243-249 | two words separated by any run of spaces give exactly two tokens |
| Tokenizer.RunWordSpace | src/main.rs:243-250 | a bare word followed by a space becomes a token |
| Tokenizer.FinishWord | src/main.rs:253-255 | a bare word at the end of the line is the last token |
| Tokenizer.FinishWordNewline | src/main.rs:250-255 | the newline at the end of a line is buffered with the last word and trimmed off with it |
| Tokenizer.WordLine | src/main.rs:217-257 | a one-word line with its newline gives that word |
| Tokenizer.TwoWordLine | src/main.rs:217-257 | a two-word line with its newline gives the two words |
| Tokenizer.SingleQuotedArgument | src/main.rs:224-230 | `w 'q' v` gives `[w, q, v]`: spaces and double quotes inside single quotes are kept |
| Tokenizer.DoubleQuotedArgument | src/main.rs:232-241 | `w "q" v` gives `[w, q, v]`: spaces and single quotes inside double quotes are kept |
| Tokenizer.ExampleBareNewline | src/main.rs:253-255 | a bare newline is a single empty token |
| Tokenizer.WordThenBlank | src/main.rs:243-255 | a word, an unquoted space and a non-space whitespace character give the word and an empty last token |
| Tokenizer.ExampleTrailingNewline | src/main.rs:253-255 | `echo ` followed by a newline gives `echo` and an empty last token |
| Commands.IsBuiltin | src/main.rs:43-53 | a name is a builtin exactly when it is one of `exit`, `echo`, `type`, `pwd`, `cd` |
| Commands.ParseTokens | src/main.rs:55-98 | it fails exactly on no tokens (with the empty message) and on `type` alone (with `type: missing argument`); the result is external exactly when the first token is not a builtin; program names and argument lists are kept verbatim |
| Commands.Parse | src/main.rs:55-61 | no contract of its own: `parse` is tokenizing followed by `ParseTokens`; `Commands.ParseOutcomes`, `Commands.ParseLineOfRender` and `Commands.ParseBareNewline` state its properties |
| Commands.ParseRender | src/main.rs:55-98 | parsing is a left inverse of rendering for every command the parser can produce |
| Commands.ParseNormalForm | src/main.rs:55-98 | every parse result is well formed and survives rendering and parsing again |
| Commands.ParseOutcomes | src/main.rs:58-81 | a line gives the silent error exactly when it has no tokens, and its only other error is `type` without argument |
| Commands.ParseWithArguments | src/main.rs:66-92 | `type` and `cd` take the first argument, `pwd` ignores its arguments, `exit` keeps its first argument only as an `i32` |
| Commands.ParseWithoutArguments | src/main.rs:67-92 | `cd` alone means `cd ~`, `exit` alone has no code, `pwd` and `echo` need no arguments |
| Commands.ParseLineOfRender | src/main.rs:55-98 | a command written as clean words separated by spaces parses back to itself |
| Commands.ShowIntClean | src/main.rs:67-71 | the rendering of an integer is a clean word |
| Commands.ParseBareNewline | src/main.rs:58-61 | a bare newline parses to an external command with an empty name, not to the silent error |
| Resolver.PathJoin | src/main.rs:201 | no contract of its own: Unix `Path::join`; `Resolver.PathJoinShape` states its properties |
| Resolver.PathJoinShape | src/main.rs:201 | `Path::join`: the candidate ends with the command; a relative command sits under a non-empty directory with exactly one `/` between them (added only when the directory does not already end with one, as the lengths show); an absolute command or an empty directory gives the command itself |
| Resolver.FirstMatch | src/main.rs:199-207 | a match passes the executable test, and there is none exactly when no directory's candidate passes |
| Resolver.FirstMatchIsFirst | src/main.rs:200-206 | a match is the candidate of the first directory that passes; all earlier ones fail |
| Resolver.LookupIsFirstMatch | src/main.rs:194-214 | `find_cmd` finds nothing exactly when `PATH` is unset or no directory passes, and otherwise returns the first passing candidate in `:`-split order |
| Resolver.Lookup | src/main.rs:194-214 | no contract of its own: what `find_cmd` returns; `Resolver.LookupIsFirstMatch` characterizes it and `Resolver.FindCmd` is proved equal to it |
| Resolver.FindCmd | src/main.rs:194-214 | the loop with `break` returns exactly `Lookup`, and what it returns passes the executable test |
| Executor.TypeMessage | src/main.rs:109-117 | no contract of its own: the line `type` prints; `Executor.TypeBuiltinWins` and `Executor.TypeReportsFirstMatch` state its cases |
| Executor.RunExternal | src/main.rs:119-150 | no contract of its own: look up, spawn by bare name, fall back to the resolved path; `Executor.NotFoundEverywhere`, `Executor.ChildStatusPropagates` and `Executor.SpawnFallback` state its cases, and `Executor.Execute` its structure |
| Executor.CdTarget | src/main.rs:161-180 | no contract of its own: the expanded `cd` target; `Executor.CdHome`, `Executor.CdUnderHome` and `Executor.CdLiteral` state its cases |
| Executor.ChangeDir | src/main.rs:182-189 | no contract of its own: the effects of `cd`; `Executor.CdChanges` states its success, and `Executor.CdWithoutHome`, `Executor.CdMissingDirectory` and `Executor.CdOtherError` its failures |
| Executor.ReplStep | src/main.rs:266-273 | no contract of its own: one loop iteration; `Executor.ReplErrors` and `Executor.ExitLine` state its behaviour |
| Executor.ChildExit | src/main.rs:126-130 | the interpreter continues exactly when the child exited with 0; otherwise it exits with the child's code, or 1 when there is no code |
| Executor.ReplaceAll | src/main.rs:164 | `replace` with a one-character pattern: when the replacement lacks the character, none is left; text without it is unchanged; the character on its own becomes the replacement |
| Executor.ReplaceAllAppend | src/main.rs:164 | replacement distributes over concatenation |
| Executor.Execute | src/main.rs:100-192 | nothing follows process exit; `exit` always exits, with its code or 0; `echo`, `type` and `cd` never exit; only `cd` changes directory; only an external command attempts to start a child |
| Executor.TypeBuiltinWins | src/main.rs:109-111 | a builtin name is reported as a builtin whatever `PATH` holds |
| Executor.TypeReportsFirstMatch | src/main.rs:109-117 | any other name is reported as not found exactly when `PATH` is unset or has no executable candidate, and otherwise with the first directory's candidate |
| Executor.NotFoundEverywhere | src/main.rs:109-149 | a name that is neither builtin nor on `PATH` is reported not found by both `type` and execution, and no attempt to start a child is made |
| Executor.ChildStatusPropagates | src/main.rs:119-130 | the first attempt starts the child by its bare name with `PATH` passed on; when it starts, a non-zero code ends the interpreter with that code, a signal with 1, success lets it continue |
| Executor.SpawnFallback | src/main.rs:131-145 | when the start by bare name fails, a second attempt by the resolved path follows, without `PATH` set; its child status ends the interpreter as before, and its failure prints `name: error` on stderr without ending it |
| Executor.CdHome | src/main.rs:170-177 | `cd ~` targets `HOME` or reports its error |
| Executor.CdUnderHome | src/main.rs:162-169 | `cd ~/rest` targets `HOME/rest`, with every `~` in `rest` replaced by `HOME` as well |
| Executor.CdLiteral | src/main.rs:178-180 | any other target, `~user` included, is used literally and `HOME` is not read |
| Executor.CdWithoutHome | src/main.rs:162-177 | a `~` target without `HOME` prints `cd: HOME: <error>` and changes nothing |
| Executor.CdChanges | src/main.rs:182-189 | a successful change records exactly the expanded target |
| Executor.CdOtherError | src/main.rs:185-187 | any other failure prints `cd: <target>: <message>` and changes nothing |
| Executor.CdMissingDirectory | src/main.rs:182-189 | a missing directory prints `cd: <target>: No such file or directory` and changes nothing |
| Executor.ExitLine | src/main.rs:102-104 | the line `exit N` exits with `N` for every `i32`, and a bare `exit` exits with 0 |
| Executor.ExitNonNumeric | src/main.rs:102-104 | `exit` followed by a word that is not an `i32` ends the process with code 0 |
| Executor.ExitWord | src/main.rs:102-104 | the line `exit abc` ends the process with code 0 |
| Executor.ExitLineRead | src/main.rs:102-104 | the same holds for the lines as `read_line` delivers them, with their newline |
| Executor.ExitLineWithNewline | src/main.rs:264 | `exit N` followed by the newline tokenizes to `exit` and `N` |
| Executor.BareExitWithNewline | src/main.rs:264 | `exit` followed by the newline tokenizes to `exit` alone |
| Executor.EchoOutput | src/main.rs:105-107 | for any arguments, `echo` prints exactly one line: its arguments joined by single spaces |
| Executor.EchoPrintsArguments | src/main.rs:105-107 | for clean words the printed line is the space-joined arguments and tokenizes back to them |
| Executor.PwdOutcomes | src/main.rs:151-158 | `pwd` prints the working directory, or prints `pwd: <error>` and exits with 1 |
| Executor.ReplErrors | src/main.rs:266-273 | a line without tokens prints nothing; `type` alone prints the missing-argument error and the loop continues |

## Left out

- The read-eval loop itself (`main`, src/main.rs:259-275) is left out: the prompt, `flush`, `read_line` and its `unwrap`. `ReplStep` models one iteration on a line that was already read. End of input (`read_line` returning an empty string) is left out with it: it reaches the silent rule and the loop repeats.
- The operating system is not modelled. Environment variables, the file-system "exists and is executable" test, `set_current_dir`, `current_dir` and process spawning are fields of `Host`. How the child resolves its own name on the `PATH` passed to it is part of `Host.spawn`.
- State across lines is not modelled. Each `Execute` call gets its own `Host`; a directory change is recorded as an effect, and later calls do not see it.
- Process exit codes are the `i32` the interpreter passes to `exit`. The operating system's truncation to 8 bits is left out.
- Non-Unicode environment values and paths are left out. An unreadable `PATH` is `None`, as when it is unset. An unreadable `HOME` is the error's text. `Path::display`'s lossy conversion is the identity.
- `Resolver.PathJoinShape` states Unix `Path::join` only. Windows path prefixes are left out.
- The `SpecialChar` enum and `from_char` (src/main.rs:16-36) are not used by any modelled path and are left out.
- The exact text of operating-system error messages (spawn failures, `set_current_dir` errors other than not-found, `HOME` errors) is left out: each is a string that `Host` supplies.
