# Git sync driver, modelled in Dafny

This project models the git backend of a code-search indexer's version-control
layer (`vcs/git.go`). The driver keeps a local working copy in step with a
remote. `Clone` makes a shallow clone and then pulls. `Pull` resolves the ref to
track, fetches it into its tracking ref, hard-resets the work tree to it, and
reports the head revision. `HeadRev` reads that revision. `SpecialFiles` names
the metadata directory. `AutoGeneratedFilePatterns` turns the
`linguist-generated=true` entries of `.gitattributes` into regular-expression
fragments.

The model is functional. The outside world (the `git` executable and the file
system) is an oracle: a total function from a command to its outcome, meaning
its captured output and the stage at which it failed, if it did. `Pull` and
`Clone` are pure functions that return a Go-style `(value, error)` reply
together with the trace of commands they issue.

Modules:

- `Wrappers`: `Option` and `Result`.
- `Text`: Go's `strings.ReplaceAll` and `strings.TrimSpace`, with
  `unicode.IsSpace` written out in full. Also the end of a line, which is as far
  as a greedy `.+` can reach.
- `Paths`: `filepath.Split` with `/` as the separator.
- `Matchers`: the two regular expressions, `HEAD branch: (.+)` and
  `(.+) linguist-generated=true`. They follow Go's RE2 semantics: unanchored
  search, leftmost match first, greedy `.+`, and `.` matches anything except a
  newline. Each is specified by a match predicate, with the leftmost start and
  the longest capture proved.
- `Glob`: the two-pass glob rewrite. It is defined through `ReplaceAll` as in
  the source and proved equal to a character-by-character definition.
- `Refs`: the configuration and the three-tier ref precedence.
- `Runner`: the commands, their command lines, the oracle, and `run`'s policy
  of swallowing errors.
- `Driver`: `newGit`, `HeadRev`, `detectRef`, `Pull`, `Clone`, `SpecialFiles`
  and `AutoGeneratedFilePatterns`.

Points where the code's behaviour is easy to misread:

- The detected branch name is not trimmed. It is the rest of the line after
  `HEAD branch: `, spaces included.
- A failed `git remote show origin` does not by itself make detection give up.
  `run` returns the output with no error, so that output is searched like any
  other. The error branch in `detectRef` is dead.
- A nil configuration blob skips decoding and gives the defaults. An empty but
  non-nil blob is still decoded, and Go's decoder rejects zero bytes, so the
  model takes the decoding outcome as an input. A blob that decodes without
  either field also leaves the defaults.
- The glob rewrite does not escape dots: `vendor/**/*.go` becomes
  `vendor/.*/.*.go`.
- `HeadRev` returns the trimmed output together with the error when waiting on
  the process fails. It discards the output only when creating the pipe,
  starting the process or reading its output fails; otherwise the value is the
  trimmed output, which may itself be empty.

## Model

| member | source | states |
|---|---|---|
| Refs.TargetRef | vcs/git.go:118-131 | The result is never empty. A non-empty explicit ref is returned verbatim. With no explicit ref and detection on, a non-empty detected name is returned. In every other case the result is `master`. |
| Refs.DetectorConsultedOnlyWhenEnabled | vcs/git.go:120-124 | With an explicit ref set, or with detection off, any two detectors give the same ref, so the detector is never consulted. |
| Refs.TargetRefDependsOnDetection | vcs/git.go:122-123 | Only the detector's answer for the given directory affects the resolved ref. |
| Refs.TargetRefIsACandidate | vcs/git.go:118-131 | The resolved ref is always the explicit ref, the detected name, or the default. |
| Runner.WorkDir | vcs/git.go:141 | A clone runs in the parent of the target directory. Every other command runs in the repository directory itself (the `Dir` assignments at lines 58 and 80). |
| Runner.Argv | vcs/git.go:181-186 | Each command's exact argument list: `git remote show origin` for the detector and `git rev-parse HEAD` fixed (lines 54-57); `clone --depth 1` then URL and leaf (lines 135-140); `fetch --prune --no-tags --depth 1 origin` then the refspec (lines 96-103); `reset --hard` then the target (lines 107-111). |
| Runner.Run | vcs/git.go:78-91 | `run` yields the command's captured output and no error, whether or not the command failed. |
| Runner.RunHidesFailure | vcs/git.go:81-90 | Two outcomes with the same output but different failures look the same to `run`'s caller. |
| Text.ReplaceAll | vcs/git.go:171-172 | Replacing a pattern by something no longer never makes the string longer, and by something no shorter never makes it shorter. Its equality with the character-level rewrites is stated by `Glob.CollapseIsReplaceAll` and `Glob.WidenIsReplaceAll`. |
| Text.ReplaceAllAbsent | vcs/git.go:171-172 | `strings.ReplaceAll` with a non-empty pattern that does not occur returns its input unchanged. |
| Text.TrimSpace | vcs/git.go:75 | The result is the slice of the input that starts at its first non-space character. Everything outside the slice is white space, and the slice neither starts nor ends with white space. |
| Text.TrimSpaceFixes | vcs/git.go:75 | A string without surrounding white space is left unchanged. |
| Text.TrimSpaceIdempotent | vcs/git.go:75 | Trimming twice gives the same result as trimming once. |
| Paths.Split | vcs/git.go:134 | The parent and the last element concatenate back to the path. The parent is empty or ends in `/`, and the last element contains no `/`. |
| Paths.SplitUnique | vcs/git.go:134 | Any cut of the path with those three properties is the one `Split` returns. |
| Matchers.HeadBranch | vcs/git.go:198-208 | The result is empty exactly when `HEAD branch: (.+)` has no match. Otherwise it is the text from just after the leftmost match of the expression (the prefix followed by a character other than a newline) to the end of that line, so a prefix directly followed by a newline is skipped. It contains no newline. |
| Matchers.HeadBranchOfLine | vcs/git.go:198-208 | The first `HEAD branch: <name>` line yields `<name>` exactly, including any white space. |
| Matchers.HeadBranchExample | vcs/git.go:19 | `HEAD branch: develop` yields `develop`. |
| Matchers.GeneratedPath | vcs/git.go:169-170 | There is no result exactly when `(.+) linguist-generated=true` has no match. Otherwise the captured path starts at the leftmost possible start, and for that start it is the longest newline-free span followed by the marker. |
| Matchers.GeneratedPathOfLine | vcs/git.go:168-170 | On a line without a newline, there is a match exactly when the marker follows a non-empty prefix. The path is the longest such prefix, and the marker need not end the line. |
| Matchers.GeneratedPathOfEntry | vcs/git.go:169-170 | `<path> linguist-generated=true<rest>` yields `<path>` when `<rest>` holds no later marker. |
| Glob.CollapseIsReplaceAll | vcs/git.go:171 | The first pass, `ReplaceAll(glob, "**", "*")`, equals a left-to-right collapse of `**` pairs. |
| Glob.WidenIsReplaceAll | vcs/git.go:172 | The second pass, `ReplaceAll(s, "*", ".*")`, equals widening each `*` on its own. |
| Glob.ToRegex | vcs/git.go:171-172 | The rewrite equals collapse followed by widen. Every `*` in the output is preceded by `.`, so the output never contains `**`. Turning each `.*` back into `*` gives the collapsed glob. |
| Glob.WidenGuarded | vcs/git.go:172 | After widening, every `*` is immediately preceded by `.`. |
| Glob.NarrowUndoesWiden | vcs/git.go:172 | Widening is invertible: turning each `.*` back into `*` restores the input. |
| Glob.CollapseKeepsLiterals | vcs/git.go:171 | Collapsing removes only stars, so the other characters survive in order. |
| Glob.ToRegexStarFree | vcs/git.go:171-172 | A glob without `*` is unchanged, because neither `**` nor `*` occurs in it and `strings.ReplaceAll` leaves it alone. |
| Glob.StarFreeUntouched | vcs/git.go:171-172 | Neither pass changes a string without `*`. |
| Glob.ToRegexKeepsLiterals | vcs/git.go:171-172 | The non-`*` characters of the glob keep their order in the output. |
| Glob.WidenAppend | vcs/git.go:172 | Widening distributes over concatenation. |
| Glob.CollapseAppend | vcs/git.go:171 | Collapsing distributes over a concatenation whose seam is not inside a run of stars. |
| Glob.ToRegexNestedGlob | vcs/git.go:171-172 | For star-free `p`, `m` (non-empty) and `q`, `p**m*q` becomes `p.*m.*q` with dots unescaped, as in `vendor/**/*.go` to `vendor/.*/.*.go`. |
| Driver.NewGitRoundTrip | vcs/git.go:39-51 | A blob carrying both fields decodes to exactly the configuration those fields describe. |
| Driver.NewGit | vcs/git.go:39-51 | A nil blob gives `detect-ref` false and `ref` empty. A decoding error is returned as the error. A decoded blob sets the fields it contains, and the other fields keep their zero values. |
| Driver.FetchRefspec | vcs/git.go:103 | The fetch refspec force-updates, from `<ref>`, the ref `remotes/` followed by the reset's target. |
| Driver.ResetTarget | vcs/git.go:111 | The reset target names `<ref>` under a remote prefix: it is `origin/<ref>`, so it is longer than `<ref>` and ends with it. |
| Driver.FetchRefspecRoundTrip | vcs/git.go:103 | For a ref without `:`, the fetch refspec reads back as a forced update of `remotes/origin/<ref>` from `<ref>`. That destination is the tracking ref the reset targets. |
| Driver.HeadRev | vcs/git.go:53-76 | The error is the failure of `git rev-parse HEAD`. A pipe, start or read failure gives an empty value. On success, or on a failed wait, the value is the trimmed standard output. The value never has surrounding white space. |
| Driver.DetectRef | vcs/git.go:180-209 | The detected ref is the head branch parsed from the output of `git remote show origin`, whether or not that command failed. |
| Driver.ResolveRef | vcs/git.go:118-131 | The driver's ref uses the precedence with the head-branch detector. `git remote show origin` is issued exactly when no explicit ref is set and detection is on. |
| Driver.Pull | vcs/git.go:93-116 | The reply is always `HeadRev`'s reply. The commands are the detector's, if any, then fetch `+R:remotes/origin/R`, then `reset --hard origin/R`, then `rev-parse HEAD`, all for the same resolved `R`. |
| Driver.PullIgnoresFetchAndReset | vcs/git.go:96-115 | Fetch and reset failures never reach the caller. Two oracles that agree on the remote description and on the head revision give the same pull. |
| Driver.PullProtocol | vcs/git.go:96-115 | The last three command lines of a pull are exactly the fetch, the reset and `rev-parse HEAD`, all for one resolved ref. |
| Driver.PullStaysInDir | vcs/git.go:93-116 | Every command of a pull runs in the pulled directory. |
| Driver.Clone | vcs/git.go:133-149 | The first command is `clone --depth 1 <url> <leaf>` in the parent directory. If it fails, the reply is an empty value with that error and nothing else runs. Otherwise the reply and the remaining commands are `Pull`'s. |
| Driver.CloneReportsHeadRev | vcs/git.go:142-148 | After a successful clone, the returned revision is what `HeadRev` reports. |
| Driver.CloneTargetsLastElement | vcs/git.go:134-141 | The clone runs in the parent directory. Its target is the last path element, which contains no `/`, and parent plus element is the original path. |
| Driver.SpecialFiles | vcs/git.go:151-155 | The result is `.git` alone, whatever the configuration. |
| Driver.LinePatterns | vcs/git.go:169-174 | A line contributes exactly one pattern when the generated-file expression matches it, and none otherwise. That pattern is the two-pass rewrite of the captured path, with each `*` guarded by `.`. |
| Driver.Patterns | vcs/git.go:167-177 | The scan loop as a fold of `LinePatterns` over the lines. Its properties are stated by `Driver.PatternsBounded`, `Driver.PatternsOfPlainFile`, `Driver.PatternsGuarded`, `Driver.PatternsAppend` and `Driver.PatternsOfLine`. |
| Driver.EachLineAppend | vcs/git.go:168-175 | Scanning a file line by line and appending each line's result is compositional: the results of two consecutive chunks concatenate. |
| Driver.PatternsBounded | vcs/git.go:168-175 | Each line adds at most one pattern, so there are at most as many patterns as lines. |
| Driver.PatternsOfPlainFile | vcs/git.go:168-175 | A file in which no line matches the generated-file expression yields no pattern. |
| Driver.PatternsGuarded | vcs/git.go:171-173 | Every collected pattern is in regular-expression form: each `*` is preceded by `.`. |
| Driver.AutoGeneratedFilePatterns | vcs/git.go:157-178 | A missing attributes file yields the empty sequence. Otherwise the result is the scan of its lines, `Patterns`: at most one pattern per line, none for a file without a matching line, each in regular-expression form. |
| Driver.PatternsAppend | vcs/git.go:168-175 | The patterns of consecutive chunks of the file concatenate, so lines are handled independently and in file order. |
| Driver.PatternsOfLine | vcs/git.go:169-174 | A one-line file yields that line's own contribution. |
| Driver.PatternsKeepDuplicates | vcs/git.go:173 | There is no deduplication: a generated line that appears twice yields its pattern twice. |
| Driver.EntryPattern | vcs/git.go:169-173 | The line `<path> linguist-generated=true` yields exactly the rewrite of `<path>`. |

## Left out

- Process execution (`exec.Command`, `CombinedOutput`, pipes, `Wait`) and real git behaviour. The oracle supplies each command's output and failure stage. It is a function of the command alone, so one call never issues the same command twice with different results.
- `log.Printf` diagnostics. They have no effect on results.
- JSON decoding in `newGit`. The decoded fields, or the decoding error, are an input to `NewGit`. Go's key matching and `null` handling are not modelled.
- `Register` and `init` registration. They are process-wide state defined outside this file.
- Opening `.gitattributes` (`filepath.Join`, `os.Open`) and `bufio.Scanner`. The file is an optional sequence of lines. Carriage-return stripping and the 64 KiB token limit that silently stops the scan are not modelled.
- `filepath.Split` on systems whose separator is not `/`, and volume names.
- Go's strings are byte sequences decoded as UTF-8. Here strings are sequences of Unicode scalar values, so invalid UTF-8 is not modelled.
- The `desc` argument of `run`. It is used only in the log message.
