# opkssh, verified

opkssh lets people log in to SSH servers with their OpenID Connect identity. This project models the
parts of it that decide who gets in and what happens to files and keys, and proves what those parts
promise:

- **The policy file** (`Text`, `ShellQuote`, `Quoting`, `Table`, `Comments`, `Reread`, `Policy`, `Repeating`,
  `AddCommand`, `Audit`): a text table with a parser, a printer, an update through the disk and a second,
  line-by-line reader.
- **The authorization decision** (`Plugins`, `Enforcer`, `Matching`, `Loaders`, `Authorization`, `Verify`): deny
  lists, policy plugins that share one environment, rows merged from two files, and the line printed for sshd.
- **The life of a key** (`SshConfig`, `KeyStore`, `Login`, `Logout`, `Lifecycle`, `Retry`, `Agent`): where
  login and its refreshes write, what logout deletes, the edit of the ssh config and its undo, and
  the certificate in the ssh agent over all runs.
- **Repairing permissions** (`Permissions`, `Repair`, `Rights`): a plan that the execution must follow and what
  it achieves, and the Windows rights texts that must act as sets of bits.

Code that changes state step by step is a class or a method with loops, proved against functions
that say what a file or a run means; the theorems are about those functions. So that these functions cannot
drift together with the code, further lemmas state what each of them means with words, modes, names and
conditions written out. Main results:

1. A printed table reads back **if and only if** its rows are not empty, hold no `#` and no line break,
   do not begin or end in bare white space other than blanks, and the file does not start with a bare
   byte order mark (`Table.RoundTrip`); what any printed table of clean rows reads as instead is given
   word by word (`Reread.TableRereads`). Adding a grant through the file has its exact condition for
   the order and for the set of grants (`Policy.AddThroughFile`), and so have the stability of the
   bytes (`Policy.PrintingIsStable`) and the repetition of an add (`Repeating.RepeatsExactly`).
   Comments, blanks around a line and a first byte order mark make no difference to what a file grants
   (`Comments.CommentsAreIgnored`, `Comments.SpaceIsIgnored`), and however words are quoted and spaced, a line
   splits into their texts (`Quoting.LineReads`).
2. The audit validates on every line exactly the grants that the whole-file reader finds there **if and
   only if** no later line is a grant behind a byte order mark (`Audit.TwoReadersAgree`), with one
   numbered error for every bad line (`Audit.BadLinesAreReported`).
3. A login is granted **if and only if** the plugin run does not panic and a rule without order says so:
   gates open, and a plugin allows or the merged policy does (`Authorization.Decide`). Which tokens a row
   matches has its exact condition for plain, wildcard, repo and claim rows (`Matching.PlainRow`, `WildcardRow`, `RepoRow`,
   `ClaimRow`, `QuotedClaimRow`), down to the rule with everything written out (`Matching.WhatIsGranted`). Every
   command that runs, its config file and the directory belong to root and have the right modes, whatever
   the run (`Plugins.PluginEnforcer.CheckPolicies`). A home file grants
   nobody but its owner (`Loaders.HomeContainment`), and plugins see nothing but their own tokens
   (`Plugins.PluginEnforcer.CheckPolicies`). Plugins are meant only ever to add to what the policy grants;
   they take it away **if and only if** some plugin makes the run panic (`Enforcer.PluginsOnlyExpand`),
   as one with a blank command does (`Authorization.BlankPluginRevokes`).
4. No run of login changes a default key that is not its own (`Login.LoginCmd.LoginWithRefresh`), and none of
   logout deletes a pair without its comment and its key (`Logout.LogoutCmd.Run`). A login and all its
   refreshes write one key pair (`Login.LoginCmd.LoginWithRefresh`), and the agent remembers the certificate
   on disk, its serial being new, exactly if it took the last one; logout deletes exactly the doomed pairs in
   whatever order it looks (`Logout.LogoutCmd.Run`), and undoes the config edit **if and only if** the config
   had no line for the key (`SshConfig.LogoutUndoesLogin`). From one to the other, a login's pair is gone **if
   and only if** logout looks at its file, and then files and config are as if the login had not been
   (`Lifecycle.LoginThenLogout`). A second logout completes the files of one that broke off **if and only if**
   that did not leave a certificate without its key (`Retry.LogoutTwice`).
5. The agent holds at most the remembered certificate throughout a run **if and only if** every step
   keeps to a rule about removals and lost replies (`Agent.OneThroughout`), and everything added expires
   (`Agent.AlwaysTimed`, `Agent.DrainsInTime`).
6. Permission repair attempts exactly what it planned, even while operations fail, and a second run
   changes nothing (`Permissions.PermissionsCmd.Fix`, `Permissions.SecondFixChangesNothing`). After one without
   failures every file has the owner, group and mode it should have (`Repair.RepairAchieves`), and no other
   file was touched (`Repair.OthersAreLeftAlone`).
7. Rights texts are bit sets in any order and with repeats (`Rights.RightsActAsBits`).

Where a promise does not hold on all inputs, the project keeps the code as it is, proves when the
promise holds, and shows a failing input: `Policy.CommentMarkIsLost`, `Audit.LaterBomDivides`,
`Audit.MarkedLinesMakeUp`, `Authorization.BlankPluginRevokes`, `Lifecycle.CertNamedKeyIsMissed`,
`Login.KeyOverwritesCertificate`, `Login.RefreshMovesOn`, `Agent.LostReplyLeavesTwo`,
`Agent.FailedRemoveLeavesTwo`.

Check everything with `dafny verify dfyconfig.toml`.

## Model

| member | source | states |
|---|---|---|
| `ShellQuote.SplitOfJoin` | policy/files/table.go:66-72 | Joining any row of words and splitting the line returns the row, empty words, blanks, quotes and backslashes included; proved for a stand-in for the shellquote package after section 2.2 of the POSIX.1-2017 Shell Command Language. |
| `ShellQuote.SplitBehindBom` | policy/files/table.go:91-120 | A byte order mark and spaces in front of a line do not change whether, and why, it fails to parse. |
| `ShellQuote.SplitOdds` | policy/files/table.go:91-120 | Reading a line yields exactly the odd characters (white space other than blanks, byte order marks) that the line has: none is lost, none is made up. |
| `Quoting.LineReads` | policy/files/table.go:91-120 | A line splits into the texts of its words, however these are made of bare, escaped, single-quoted and double-quoted pieces and whatever blanks stand between them. |
| `Quoting.BrokenLine` | policy/files/table.go:91-120 | A line that breaks off inside quotes or behind a backslash fails for exactly that cause. |
| `Quoting.RunPiece` | policy/files/table.go:91-120 | A piece of a word adds its text to the word under way and nothing else. |
| `Quoting.OpenEnds` | policy/files/table.go:91-120 | After any words, what is left open at the end of a line is the cause of the failure. |
| `Quoting.BackslashInDouble` | policy/files/table.go:91-120 | In double quotes a backslash in front of any other character stays, and in front of a line feed both go. |
| `Quoting.ContinuedLine` | policy/files/table.go:91-120 | Outside of quotes a backslash in front of a line feed goes with it. |
| `Quoting.PrintedWord` | policy/files/table.go:66-72 | Words without special characters are printed as they are, with blanks in single quotes, and the empty word as two quotes. |
| `Table.Table.FromContent` | policy/files/table.go:31-52 | The loop over lines yields the rows of the text: a mark stripped once, lines that are empty or do not parse skipped. |
| `Table.Table.AddRow` | policy/files/table.go:62-64 | The row is appended and nothing else changes. |
| `Table.Table.ToString` | policy/files/table.go:66-72 | The text is one quoted line per row, in order. |
| `Table.ReadRowsWithDetails` | policy/files/table.go:91-120 | One detail per line, in order, with the columns, the emptiness or the cause of failure. |
| `Comments.CleanOfText` | policy/files/table.go:54-60 | What stands between white space and in front of a comment mark is what is read of a line. |
| `Comments.CommentIsIgnored` | policy/files/table.go:43-60 | A text without comment marks reads the same, in both readers and with the same error, with any comment behind it. |
| `Comments.SpaceIsIgnored` | policy/files/table.go:43-60 | White space around a line does not change its row. |
| `Comments.EmptyLine` | policy/files/table.go:91-120 | A line of white space and a comment has no row and is no error. |
| `Comments.LineWithoutComment` | policy/files/table.go:43-60 | Every line reads, in both readers, as it does up to its comment mark. |
| `Comments.LinesWithoutComments` | policy/files/table.go:31-60 | Dropping the comments of a file keeps its lines and cuts each at its comment mark. |
| `Comments.CommentsAreIgnored` | policy/files/table.go:31-60 | Every file has the same rows, entries and grants without its comments. |
| `Comments.MarkIsStripped` | policy/files/table.go:31-43 | A byte order mark at the very start is as if it were not there; one behind it stays. |
| `Table.RowsAreClean` | policy/files/table.go:31-60 | No row that was ever read is empty or holds a comment mark or a line break. |
| `Table.LineReadsBack` | policy/files/table.go:43-72 | A clean row, printed, reads back as itself if and only if no bare white space other than blanks stands at its ends. |
| `Table.RoundTrip` | policy/files/table.go:31-76 | Reading a printed table returns its rows if and only if the table keeps the rules on rows and on its first character; for every table. |
| `Reread.LineRereads` | policy/files/table.go:43-72 | What every printed clean row reads as: the row without bare words of white space at its ends and without bare white space at the ends of its first and last word. |
| `Reread.MarkedLineRereads` | policy/files/table.go:31-72 | The same for a first row whose byte order mark is stripped. |
| `Reread.TableRereads` | policy/files/table.go:31-76 | The rows that any printed table of clean rows reads as, in order. |
| `Reread.ReadIsKept` | policy/files/table.go:31-76 | Whatever is read from a printed table of clean rows reads back when it is printed again. |
| `Policy.FromTable` | policy/policy.go:58-96 | The entries and the problems of a file, row by row: three columns and an identity make an entry, anything else one problem. |
| `Policy.FileGrants` | policy/policy.go:58-96 | What is read from a whole file is what is read line by line, in order. |
| `Policy.WhatIsRead` | policy/policy.go:58-96 | The entries of a file are its rows of three columns with an identity: principal, identity, issuer. |
| `Policy.WhatIsReported` | policy/policy.go:58-96 | The problems of a file are its other rows, with the row and the number of its columns. |
| `Policy.EveryRowCounts` | policy/policy.go:58-96 | Every row is either an entry or a problem. |
| `Policy.Policy.AddAllowedPrincipal` | policy/policy.go:103-140 | The entries become those of `Added`: unchanged if the grant is there, else the first entry for identity and issuer grows, else a new entry follows. |
| `Policy.Policy.ToTable` | policy/policy.go:143-151 | The bytes list one row per principal of every entry, in order. |
| `Policy.WhatIsWritten` | policy/policy.go:143-151 | A row is written if and only if it holds a principal, the identity and the issuer of some entry, in this order. |
| `Policy.AddedGrants` | policy/policy.go:98-140 | Adding turns the set of grants into the old set plus the new triple, nothing more and nothing less. |
| `Policy.ReadBack` | policy/policy.go:58-151 | A written policy reads back, grant by grant and in order, if and only if it is lossless. |
| `Policy.ReadBackAsSet` | policy/policy.go:58-151 | The set of grants of a written policy reads back if and only if every row keeps the rules and, should the file start with a bare byte order mark, the first row stands elsewhere too and what it reads as is there anyway; for every policy. |
| `Policy.BytesDetermineGrants` | policy/policy.go:143-151 | Two policies with equal bytes have equal grants in equal order, whatever their fields hold. |
| `Policy.PrintingIsStable` | policy/policy.go:58-151 | Reading and rewriting a written file leaves its bytes unchanged if and only if it is lossless. |
| `Policy.AddedIsLossless` | policy/policy.go:103-140 | Whether the updated policy is lossless shows before the add, in the old grants and the new one. |
| `Policy.AddThroughFile` | commands/add.go:109-131 | After an add through the file the re-read grants are the updated ones in order if and only if the old grants and the new one are lossless; the re-read set is the old set plus the new triple if and only if the updated grants are kept, as lossless ones are. |
| `Policy.CommentMarkIsLost` | policy/files/table.go:54-60 | A principal with a comment mark is written and cannot be read back. |
| `Repeating.RepeatsExactly` | commands/add.go:116-125 | For every file and every grant, repeating the add leaves the bytes unchanged if and only if the grants are lossless, or the lines of the printed grants read as all of them but the new one and an add puts that back where it stood. |
| `Repeating.RepeatsOrderly` | commands/add.go:116-125 | Where nothing is stripped, the new grant has no line break and, if it has a comment mark, reads as no grant, the condition can be judged row by row. |
| `Repeating.RepeatsForever` | commands/add.go:116-125 | What one repetition leaves unchanged, any number does. |
| `Repeating.OthersOfAdded` | policy/policy.go:103-140 | An add puts a new grant in at one place and leaves the others as they were, in order. |
| `AddCommand.AddCmd.GetPolicyPath` | commands/add.go:71-90 | The system file if it loads, the home file if permission is lacking, else nothing; the flag is true for the system file. |
| `AddCommand.AddCmd.CreateIfDoesNotExist` | policy/files/fileloader.go:36-56 | Only a missing file is created, with the directories above it, empty and with the required mode; what is left when a step fails; no other file changes. |
| `AddCommand.WhatIsAbove` | policy/files/fileloader.go:42-44 | The directories that a creation may add are those that the path goes through. |
| `AddCommand.AddCmd.LoadPolicy` | commands/add.go:46-66 | Which file is read, when loading succeeds, and that the entries are those of that file. |
| `AddCommand.AddCmd.Run` | commands/add.go:97-131 | When a run succeeds; which file is then updated and its whole new content; that the target grants exactly the old set plus the new triple if and only if the updated grants are kept; that a system file of another mode than 640, or a home file of another mode than 600, is refused without a change; that all other files are untouched in every run. |
| `Audit.AuditPolicyFile` | commands/audit.go:206-241 | The results are the reports of the lines, in order and numbered from one. |
| `Audit.AuditLine` | commands/audit.go:207-241 | One line gives no result, one error, or the validation of its grants. |
| `Audit.ValidateUsers` | commands/audit.go:234-240 | The nested loops over entries and principals validate every grant once, in order. |
| `Audit.LineReportIsVerdict` | commands/audit.go:206-241 | Two parses of a line with a byte order mark come to one verdict: that on the line without the mark. |
| `Audit.TwoReadersAgree` | commands/audit.go:206-241 | For every content, the grants validated at each line number are those that the whole-file reader finds on that line if and only if no later line is a grant behind a byte order mark, with or without the mark; and then the grants validated are those of the whole file, in order. |
| `Audit.MarkedGrantDiffers` | commands/audit.go:223-224 | A line never reads as the same grant with and without a byte order mark in front. |
| `Audit.BadLinesAreReported` | commands/audit.go:210-233 | A line has at most one result, by literal cases: none if it is empty; an error from reading, with the number of the line, if and only if it does not parse or is not a grant; else the verdict on its grant. |
| `Audit.LaterBomDivides` | commands/audit.go:223-224 | With a byte order mark in front of a later line the two readers see different grants. |
| `Audit.MarkedLinesMakeUp` | commands/audit.go:206-241 | Two lines behind byte order marks on which the readers disagree can make up for each other in the sequence of all grants, so that the sequence alone does not show it. |
| `Plugins.LoadPlugins` | policy/plugins/plugins.go:113-168 | Nothing from a directory that cannot be trusted, listed or described; else one result per yml file, with the first check that failed. |
| `Plugins.WhenNothingLoads` | policy/plugins/plugins.go:113-132 | Nothing is loaded if and only if the directory is not owned by root with mode 700, 750 or 755, cannot be listed, or has an entry without attributes. |
| `Plugins.WhatIsLoaded` | policy/plugins/plugins.go:124-140 | A result is loaded if and only if it is that of a listed entry that is no directory and ends in `.yml`. |
| `Plugins.WhyConfigFails` | policy/plugins/plugins.go:137-165 | A config file is insecure if and only if it is not owned by root with mode 640; otherwise the first thing wrong with it is reported, and nothing is taken from a file that fails. |
| `Plugins.LoadedIsRoots` | policy/plugins/plugins.go:113-168 | A cleanly loaded result stands for a config file of root, with mode 640, in a trusted directory. |
| `Plugins.LoadEntries` | policy/plugins/plugins.go:124-167 | The loop over a directory: one entry that cannot be described ends it, other entries are passed over. |
| `Plugins.AnyAllowed` | policy/plugins/plugins.go:68-86 | Allowed, not allowed or a panic, by the first allowed result; no panic if every allowed result has the output "allow". |
| `Plugins.EntryPrefix` | policy/plugins/plugins.go:229-233 | Testing the prefix on an entry `NAME=value` and cutting it at the first `=` tests and finds the name. |
| `Plugins.PluginEnforcer.ClearPluginEnv` | policy/plugins/plugins.go:229-233 | In whatever order the environment is walked, exactly the variables under the prefix go. |
| `Plugins.PluginEnforcer.SetTokens` | policy/plugins/plugins.go:235-239 | In whatever order the tokens are walked, success means that all of them are set and can be. |
| `Plugins.PluginPartOfEnv` | policy/plugins/plugins.go:223-239 | Under the prefix an environment made this way holds the tokens and nothing inherited. |
| `Plugins.WhatCommandsSee` | policy/plugins/plugins.go:223-239 | Variable by variable: a command sees the tokens, and what it inherits exactly if that is not under the prefix. |
| `Plugins.WhatIsolationMeans` | policy/plugins/plugins.go:223-239 | An isolated call sees under the prefix its own config, the supplied tokens and nothing else. |
| `Plugins.PluginEnforcer.ExecutePolicyCommand` | policy/plugins/plugins.go:218-256 | When a command runs, with which words and environment; which error refuses it; and that a blank command panics. |
| `Plugins.PluginEnforcer.RunPlugin` | policy/plugins/plugins.go:196-213 | One turn of the loop settles one result and keeps isolation and the tokens of the others. |
| `Plugins.PluginEnforcer.CheckPolicies` | policy/plugins/plugins.go:191-215 | Every cleanly loaded plugin is attempted once, in order, even after an allow; for every command that runs the command, its config file and the directory are owned by root and have one of the modes required, and the command sees under the prefix the supplied tokens and its own config; every result is settled by its attempt and backed by a call; the run panics if and only if some attempt reaches a blank command. |
| `Plugins.WhoIsTrusted` | policy/files/permschecker.go:34-80 | The promise on the commands that run, with owners and modes of command, config file and directory written out. |
| `Plugins.AttemptedByRoot` | policy/plugins/plugins.go:241-252 | An attempt without an error had a command owned by root with mode 555 or 755. |
| `Plugins.WhyAttemptFails` | policy/plugins/plugins.go:218-252 | A command that is not owned by root with mode 555 or 755 is refused as insecure; the other refusals have their exact conditions. |
| `Plugins.WhatResultsMean` | policy/plugins/plugins.go:196-213 | A result is allowed if and only if loading and attempt had no error, the command succeeded and answered "allow"; what went wrong before is kept. |
| `Plugins.WhatBacksResults` | policy/plugins/plugins.go:196-213 | A result with a command shows what that command answered when it was run for this config. |
| `Plugins.WhatCrashes` | policy/plugins/plugins.go:218-246 | A plugin makes the run panic if and only if it loaded, its config can be encoded, all variables can be set and its command is blank. |
| `Plugins.BlankCommands` | policy/plugins/plugins.go:241-246 | The commands that panic are those of blanks and backslashes that escape a line feed, and no others. |
| `Plugins.AllowedMeansAllow` | policy/plugins/plugins.go:68-86 | An allowed result has the output "allow", no error, and a command owned by root with mode 555 or 755, a config file with mode 640 and a directory with mode 700, 750 or 755, both owned by root. |
| `Plugins.NeverInconsistent` | policy/plugins/plugins.go:70-80 | The panic on an inconsistent result is out of reach for every list that a run returns. |
| `Enforcer.EscapedSplit` | policy/enforcer.go:122-131 | The scan with a captured flag yields the non-empty stretches between separators outside quotes. |
| `Enforcer.SectionsOfJoin` | policy/enforcer.go:119-131 | Splitting undoes joining, for all non-empty sections that keep their separators inside closed quotes. |
| `Enforcer.QuotedClaimMatches` | policy/enforcer.go:135-170 | A row `oidc:"claim":value`, colons in the claim allowed, matches if and only if the value is listed under that claim and the email lacks the reserved prefix. |
| `Matching.UnusableRow` | policy/enforcer.go:135-150 | An empty identity, or one that is a reserved word up to folding, matches no token. |
| `Matching.PlainRow` | policy/enforcer.go:135-201 | A plain identity grants if and only if issuer and principal are the row's and some claim set has an email without the reserved prefix and either that email up to folding or that sub. |
| `Matching.WildcardRow` | policy/enforcer.go:172-178 | The same condition for a wildcard row, which also matches every email with its end, in lower case. |
| `Matching.RepoRow` | policy/enforcer.go:180-187 | The same condition for a repo row, which also matches every sub that its pattern matches. |
| `Matching.ClaimRow` | policy/enforcer.go:152-170 | A claim row of three or more sections grants if and only if its last section is listed under the claim of its second one. |
| `Matching.QuotedClaimRow` | policy/enforcer.go:152-170 | The same for a claim in quotes, which may hold colons. |
| `Matching.ShortClaimRow` | policy/enforcer.go:152-162 | A claim row without a value matches no token. |
| `Matching.RowsGrantAlone` | policy/enforcer.go:290-318 | A policy grants if and only if one of its rows grants alone. |
| `Matching.UnnamedIsRefused` | policy/enforcer.go:290-318 | An issuer or principal that no row has is granted nothing by a policy. |
| `Matching.FoldsByKeys` | policy/enforcer.go:144-146 | Comparison up to folding is equality of keys, so it is an equivalence that keeps lengths. |
| `Matching.WhatIsGranted` | policy/enforcer.go:229-321 | The whole rule with deny lists, panic, plugin results, subs and single rows written out. |
| `Matching.WhyRefused` | policy/enforcer.go:229-250 | Which refusal the gates give: the first in order, with an entry that matches. |
| `Enforcer.CheckPolicy` | policy/enforcer.go:229-321 | Access is granted if and only if the gates are open, the plugin run did not panic, and a plugin allows or the policy grants; each refusal is given exactly for its reason, and a panic exactly for a panicking run behind open gates. |
| `Enforcer.CheckGates` | policy/enforcer.go:229-250 | No refusal if and only if the token is readable and no deny entry matches; else the first reason in the order of the code. |
| `Enforcer.CheckPlugins` | policy/enforcer.go:255-276 | A failed run settles nothing; results settle a grant if and only if one allows; a panic ends it. |
| `Enforcer.CheckLoaded` | policy/enforcer.go:278-320 | Granted if and only if the policy loads, userinfo fits and some row has issuer, principal and a matching claim. |
| `Enforcer.CheckRows` | policy/enforcer.go:290-320 | The loop over rows grants if and only if some row allows and userinfo fits; a mismatch of subjects is reported as soon as there is a row. |
| `Enforcer.MoreRowsGrantMore` | policy/enforcer.go:290-318 | Reordering or adding rows never revokes a grant. |
| `Enforcer.PluginsOnlyExpand` | policy/enforcer.go:258-266 | What the policy grants on its own is granted with any outcome of the plugin run if and only if that is no panic. |
| `Enforcer.MorePluginsGrantMore` | policy/enforcer.go:255-276 | With more plugin results a grant stays a grant if and only if the run with them does not panic. |
| `Enforcer.MergedDecision` | policy/enforcer.go:290-318 | The decision on a merged policy is the OR of the decisions on its parts. |
| `Loaders.LoadHomePolicy` | policy/policyloader.go:160-202 | When a home policy loads, and that its entries are those of the file, reduced to the user if asked. |
| `Loaders.Load` | policy/multipolicyloader.go:56-94 | The merged entries are the system file's followed by the reduced home file's; it fails only if both fail; the source is the text of the paths of the files read. |
| `Loaders.HomeRow` | policy/policyloader.go:180-196 | A row is kept from a home file if and only if it names the user alone and comes from a row of the file that names the user. |
| `Loaders.HomeAllows` | policy/policyloader.go:180-196 | The reduced home file allows a principal if and only if that is its user and the file itself allows it. |
| `Loaders.HomeContainment` | policy/multipolicyloader.go:56-94 | Without a plugin's word, a principal other than the owner of the home file is granted by the merged policy if and only if the system file alone grants it. |
| `Loaders.EitherFileGrants` | policy/multipolicyloader.go:56-94 | The merged policy grants if and only if the system file alone does, or the principal owns the home file and that file alone does; also if both load. |
| `Loaders.AddedEmailIsGranted` | policy/enforcer.go:229-321 | Once an add of an email row that keeps the grants is on disk, a fitting token that no deny list names is granted the principal if and only if the plugin run does not panic. |
| `Authorization.Decide` | policy/enforcer.go:229-321 | The gates, the plugin run, the loaders and the rows in sequence: when a login is granted, that it panics if and only if the gates are open and some loaded plugin makes the run panic, that what the policy grants alone is granted if and only if none does, and that closed gates run no plugin. |
| `Authorization.RunIsConsistent` | policy/plugins/plugins.go:68-86 | No run of a plugin directory has a result on which the check of results panics. |
| `Authorization.WhoAllows` | policy/plugins/plugins.go:68-86 | Whoever a run allows was allowed by a command that answered "allow", with command, config file and directory of root and of the modes required. |
| `Authorization.BlankPluginCrashes` | policy/plugins/plugins.go:241-246 | A directory with one plugin whose command is a blank makes the run panic. |
| `Authorization.BlankPluginRevokes` | policy/enforcer.go:258-266 | With that directory a login that the policy grants is refused. |
| `Verify.ErrorOnUnsafePrincipal` | commands/verify.go:212-219 | No error if and only if all principals are valid; else the error names one that is not. |
| `Verify.WhichPrincipals` | commands/verify.go:40 | A principal is valid if and only if it is a letter, digit or underscore, at most 127 further characters of the set allowed, and perhaps a dollar sign. |
| `Verify.AuthorizedKeysLine` | commands/verify.go:134-151 | A line if and only if all principals are valid; its text is written out with and without principals; it has no line break if the key has none and reads back as the options, the key and exactly the list. |
| `Verify.OptionReadsBack` | commands/verify.go:141-148 | Splitting the quoted part of the option on commas returns exactly the list of principals. |
| `Verify.OptionsReadBack` | commands/verify.go:141-151 | Any options with balanced quotes, joined by commas and followed by a text, read back. |
| `SshConfig.RemoveFromConfig` | commands/logout.go:284-306 | The loop over lines leaves the normalised text without the lines that name the key. |
| `SshConfig.WhatIsEdited` | commands/login.go:961-971 | A config that contains the path is left alone, any other gets one line in front; afterwards the path is there. |
| `SshConfig.WhatNames` | commands/logout.go:292-305 | A line names a key if and only if it is the key's line between white space. |
| `SshConfig.LinesAfterRemoval` | commands/logout.go:292-305 | After a removal exactly the lines that do not name the key are left, in order. |
| `SshConfig.RemovalIsIdentity` | commands/logout.go:284-306 | A removal changes nothing but line ends if and only if no line names the key. |
| `SshConfig.LogoutUndoesLogin` | commands/login.go:961-971 | Adding a key and removing it returns the config, up to line ends, if and only if the config had no line for that key; which it has not if it does not contain the path. |
| `SshConfig.OtherLinesSurvive` | commands/logout.go:284-306 | After any number of removals the lines that name no removed key are all left, in order. |
| `SshConfig.RemovedWithOthers` | commands/logout.go:284-306 | Removing several keys leaves the same lines of a config and of that config with one of these keys added. |
| `SshConfig.SameKeysSameLines` | commands/logout.go:284-306 | The order and repetition of removed keys does not matter to the lines that are left. |
| `SshConfig.OneKeyMore` | commands/logout.go:284-306 | Removing one key more makes no difference to the lines if and only if no line names it. |
| `KeyStore.KeyNameIsSafe` | commands/login.go:1062-1087 | A key name is never empty, never `config`, has no slash, and its path can be removed from the config again. |
| `KeyStore.WhatIsNamed` | commands/login.go:1062-1087 | A name is the issuer without https:// and the beginning of the audience, sanitized; what a token lacks is the word unknown. |
| `KeyStore.WhatIsCut` | commands/login.go:1075-1080 | What is cut is a prefix: all of a short audience, the first 20 characters of a longer one in ASCII. |
| `KeyStore.NameAsBytes` | commands/login.go:1062-1087 | The name byte by byte: the audience in UTF-8 is cut after twenty bytes, wherever its characters end, and every run of bytes that are no allowed character becomes one underscore. |
| `KeyStore.SanitizedRun` | commands/login.go:1062-1087 | Allowed characters are kept and every run of others becomes one underscore. |
| `KeyStore.NotACertPath` | commands/login.go:1001-1003 | The path of a key is never the path of a certificate. |
| `KeyStore.PairsAreDisjoint` | commands/login.go:937-938 | The files of two keys in one directory are different files if and only if their names differ and neither is the other's certificate. |
| `Login.LoginCmd.WriteKeys` | commands/login.go:1033-1060 | The secret key first, then the certificate with its comment; what is on disk after each failure, a spoiled file included. |
| `Login.LoginCmd.WriteKeysToSSHDir` | commands/login.go:977-1031 | The loop over default names writes to the first free one and to no other, or fails without a change. |
| `Login.LoginCmd.WriteKeysToOpkSSHDir` | commands/login.go:921-975 | The config is edited before the keys are written, by the containment test; the pair is named by the token. |
| `Login.LoginCmd.WriteKeysToDestination` | commands/login.go:899-919 | The whole effect of a write for each destination: one slot, its pair, the config, and nothing else. |
| `Login.LoginCmd.Write` | commands/login.go:674-677 | One write keeps a steady run in its slot and, in any run, the keys of others. |
| `Login.LoginCmd.LoginWithRefresh` | commands/login.go:627-700 | In every run, whatever fails, a default key whose certificate is missing, unreadable, without comment or with a comment other than "openpubkey" keeps its key and its certificate. From a steady start every write of a login and any number of refreshes goes to one slot, all files outside it are unchanged and the config is edited at most once, unless a failing write spoils it; a successful run leaves files and config as its last write alone would have; the agent goes through one offer for every certificate written, after it was written; then the remembered certificate is the one in the slot if and only if the agent took the last one, and a dependable agent holds no other; from any start, a default name taken by someone else's key keeps its key and certificate. |
| `Login.LoginCmd.WriteAndOffer` | commands/login.go:650-682 | One turn of a run: the certificate is offered to the agent if and only if its write succeeded. |
| `Login.Joined` | commands/login.go:674-682 | The last certificate in the slot and the state of the agent after all offers of a run. |
| `Login.DoneTwice` | commands/login.go:674-677 | A write replaces what the write before it left, in files and config. |
| `Login.SlotIsStable` | commands/login.go:1001-1030 | After changes to the slot's pair alone, the search finds the slot again if and only if it is still free. |
| `Login.RefreshFindsSlot` | commands/login.go:674-677 | The write after the first finds the same slot if and only if the slot did not hold an unreadable certificate without a key. |
| `Login.RefreshMovesOn` | commands/login.go:1005-1028 | With nothing but an unreadable certificate for the first default name, the write after the first goes elsewhere. |
| `Login.FirstFreeIsFree` | commands/login.go:1005-1028 | A default name is used only if no key is there or its certificate can be read and has the comment "openpubkey". |
| `Login.WhatIsFree` | commands/login.go:1005-1028 | A default name can be used if and only if it has no key, or a readable certificate with exactly that comment. |
| `Login.WhatIsChosen` | commands/login.go:1001-1030 | The first default name that can be used is chosen, and none if and only if none can. |
| `Login.ForeignStays` | commands/login.go:1001-1030 | What a run keeps, path by path: foreign keys and their certificates. |
| `Login.WhatIsWritten` | commands/login.go:1033-1060 | The contents of key and certificate after a write, with every other file as it was. |
| `Login.WhatFailuresLeave` | commands/login.go:1033-1060 | What every failing write leaves: nothing new, a spoiled key, or the key with a spoiled certificate. |
| `Login.WhatConfigBecomes` | commands/login.go:961-971 | The config after a write for each destination, edited or spoiled. |
| `Login.WhereTokensGo` | commands/login.go:899-975 | The path and the comment for each destination. |
| `Login.WhatIsNoted` | commands/login.go:921-975 | The comment in the opkssh directory holds issuer and audience, or the word unknown. |
| `Login.WhatRunsLeave` | commands/login.go:627-700 | Outside the slot a run leaves every file as it was; the config is as it was, edited once, or spoiled. |
| `Login.WhatIsDone` | commands/login.go:627-700 | A successful run leaves the key and certificate of its last write and a config that has the path. |
| `Login.WhatIsRemembered` | commands/login.go:642-786 | After a run the agent remembers the certificate on disk if and only if it took the last one, and if dependable holds none of ours beside it. |
| `Login.StaysOnTrack` | commands/login.go:642-682 | The invariant of a run: a successful write keeps the slot, the other files and the single edit of the config. |
| `Login.DefaultNamesAreNames` | commands/login.go:80-83 | The default names are distinct, and none is another's certificate. |
| `Login.OtherTokenKeepsPair` | commands/login.go:937-975 | A login with one token leaves the pair of another token as it is, whatever the files, if and only if their key names are apart. |
| `Login.KeyOverwritesCertificate` | commands/login.go:1062-1087 | The secret key of one token can be written over the certificate of another. |
| `Logout.LogoutCmd.RemoveKeyPair` | commands/logout.go:269-281 | The key goes before the certificate, a missing file is no error, and what is left after a failure. |
| `Logout.LogoutCmd.TryRemove` | commands/logout.go:145-180 | A key is skipped, removed or fails, by what was there before the whole run. |
| `Logout.WhatIsSelected` | commands/logout.go:145-180 | A key is selected if and only if key and certificate can be read, the comment begins with "openpubkey" and the certificate is for this key. |
| `Logout.LogoutCmd.RemoveSpecificKey` | commands/logout.go:92-122 | A named key goes if and only if it is selected and its files can be removed; no file outside its pair changes. |
| `Logout.LogoutCmd.RemoveDefaultSSHDirKeys` | commands/logout.go:134-184 | Without an error exactly the selected pairs are gone and counted; with one, only files of such pairs may be. |
| `Logout.LogoutCmd.RemoveOpkSSHDirKeys` | commands/logout.go:187-264 | The same for the opkssh directory; in every run the config lacks exactly the lines of the keys counted so far, in the order of the listing. |
| `Logout.LogoutCmd.Run` | commands/logout.go:62-89 | A run ends without a file error if and only if every doomed file can be removed and the config rewritten where needed; then precisely the doomed pairs are gone, the count is their number, whatever the order of the default names. A run that breaks off has removed the pairs it counted, in its order, and has one key in hand, of which it is said which files are left; the config has lost the lines of the keys counted. All other files are untouched. A key that the user names is the only one looked at. In every run a key without such a comment, or whose certificate is for another key, keeps both files. |
| `Logout.ForeignSurvives` | commands/logout.go:145-180 | What is inside the doomed pairs leaves every other key and certificate of the listing as they were. |
| `Logout.WhatIsLeft` | commands/logout.go:269-281 | What a broken run leaves, pair by pair: those before gone, those behind untouched, and what remains of the one in hand. |
| `Logout.AllAreSeparate` | commands/logout.go:125-131 | All names a logout looks at, of both directories, are distinct, and none is the certificate of another. |
| `Logout.SelectedLater` | commands/logout.go:145-180 | Removing earlier keys does not change whether a later key is selected. |
| `Logout.OrderDoesNotMatter` | commands/logout.go:125-131 | Two walks over the same names delete the same files and count the same. |
| `Logout.DoomedElsewhere` | commands/logout.go:70-82 | Removing the default keys does not change which opkssh keys are doomed. |
| `Retry.SelectedAgain` | commands/logout.go:145-180 | After a run that broke off, a key is selected if and only if it was before and neither it nor its secret key is gone. |
| `Retry.FilesAgain` | commands/logout.go:266-281 | A second run leaves the files complete if and only if the key in hand was itself stuck or its certificate was not. |
| `Retry.ConfigAgain` | commands/logout.go:254-257 | A second run leaves the lines of the config complete if and only if the key in hand was stuck, or is none of the opkssh directory, or has no line. |
| `Retry.LogoutTwice` | commands/logout.go:62-89 | A logout that breaks off and another that meets no obstacle: when files and config end as one undisturbed logout would have left them. |
| `Lifecycle.CommentIsOpenpubkey` | commands/logout.go:344-350 | Every comment that login writes is one that logout recognises. |
| `Lifecycle.LogoutRecognisesLogin` | commands/logout.go:92-122 | A pair that login wrote into a slot that can be read back is selected by logout. |
| `Lifecycle.DefaultIsListed` | commands/logout.go:125-131 | Each of the four default names is looked at, whatever the listing. |
| `Lifecycle.ListedInOpkssh` | commands/logout.go:209-218 | A file of the opkssh directory is looked at if and only if it is listed, not the config, and not named like a certificate. |
| `Lifecycle.OpksshIsListed` | commands/logout.go:209-218 | The key of a token is looked at if and only if its file is listed and its name does not end like a certificate's. |
| `Lifecycle.CertNamedKeyIsMissed` | commands/logout.go:215-218 | The key for issuer https://a and audience cert.pub is looked at for no listing. |
| `Lifecycle.OneMoreDoomed` | commands/logout.go:145-180 | With the written pair logout deletes exactly one key more than without it, and no other key is judged differently. |
| `Lifecycle.MissedPairStays` | commands/logout.go:209-218 | A written pair that is not looked at stays, even if its files look like those of other keys. |
| `Lifecycle.LogoutAfterLogin` | commands/logout.go:62-89 | Key and certificate are gone if and only if logout looks at the key; then the files are those that logout alone would have left without the pair, and one more is counted. |
| `Lifecycle.ConfigIsRestored` | commands/logout.go:254-257 | For every token and config, login's edit and logout's removal restore the config if and only if it had no line for that key. |
| `Lifecycle.ConfigAfterBoth` | commands/logout.go:254-257 | The lines of the config after login and logout are those that removing the same keys leaves of the config before login. |
| `Lifecycle.LoginThenLogout` | commands/logout.go:62-89 | After a successful login with refreshes from a steady and readable slot, a logout that meets no file error removes the pair if and only if it looks at it, leaves the files and config lines that logout alone would have left, and with no other key to remove restores files and config. |
| `Lifecycle.WhatIsRestored` | commands/logout.go:62-89 | Path by path: what files and config are after login and logout. |
| `Agent.Lifetime` | commands/login.go:794-819 | A lifetime, if there is one, is between one second and the largest 32-bit number of seconds. |
| `Agent.WhichLifetime` | commands/login.go:794-841 | The flag comes before the config and both before a day; durations from one second to the 32-bit maximum count in whole seconds, and nothing else does. |
| `Agent.SecondsAreKept` | commands/login.go:823-841 | A plain number of seconds is used as it is if and only if it is in range, and nothing overflows 64 bits. |
| `Agent.AgentSession.MaybeAddCertToAgent` | commands/login.go:717-721 | The agent is reached only if asked for and the key is not printed. |
| `Agent.AgentSession.AddCertToAgent` | commands/login.go:730-786 | One step of the state machine: remove the remembered certificate, add the new one, remember it only on success. |
| `Agent.WhatOffersDo` | commands/login.go:730-786 | What becomes of the remembered certificate and of the one offered, by every answer. |
| `Agent.OthersSurviveOffers` | commands/login.go:768-786 | An offer leaves every certificate other than the remembered one and the one offered as it was, of this process or not. |
| `Agent.WhatTimeDoes` | commands/login.go:722-729 | Time drops exactly the certificates that have expired. |
| `Agent.AlwaysTimed` | commands/login.go:730-819 | After every run, with failing removals and lost replies, every certificate of this process has the finite lifetime of at least one second and has not outlived it. |
| `Agent.StepKeepsOne` | commands/login.go:768-784 | A step keeps the agent at the remembered certificate if and only if it keeps to the rule on removals and lost replies. |
| `Agent.OneThroughout` | commands/login.go:642-786 | The agent holds at most the remembered certificate at every point of a run if and only if every step keeps to that rule. |
| `Agent.NeverMoreThanOne` | commands/login.go:642-786 | With removals that take effect and no lost reply, no mix of skipped, failed and successful adds, expiries and actions of other programs leaves a second certificate. |
| `Agent.DrainsInTime` | commands/login.go:722-729 | Once no add follows for a lifetime, nothing of this process is left, dependable agent or not. |
| `Agent.LostReplyLeavesTwo` | commands/login.go:775-784 | An add that takes effect but is reported as failed leaves two certificates. |
| `Agent.FailedRemoveLeavesTwo` | commands/login.go:769-773 | So does a removal that does not take effect. |
| `Permissions.PermissionsCmd.Do` | policy/files/fileperms_ops.go:58-118 | One operation is recorded with how it went; what is created has the mode that the umask leaves, missing directories above it are created too, and a creation that fails may leave some of these. |
| `Permissions.PermissionsCmd.MakePlan` | commands/permissions.go:250-305 | The planning phase lists the operations of `Plan` for the current files, and touches nothing. |
| `Permissions.PermissionsCmd.Execute` | commands/permissions.go:346-458 | The execution phase, asking the file system anew at every step, attempts the plan for the files it started with. |
| `Permissions.PermissionsCmd.FixPlugins` | commands/permissions.go:412-458 | The directory and its yml files, in order. |
| `Permissions.PermissionsCmd.Fix` | commands/permissions.go:250-458 | Unless it is no dry run, elevated and confirmed, nothing is attempted; else exactly the planned operations are, in order, whichever fail, and the files are what the operations that worked make of them. |
| `Repair.WhatIsPlanned` | commands/permissions.go:253-305 | What a plan holds, no more and no less: a missing policy file or plugins directory is created, and every file gets its mode and its owner, all written out. |
| `Repair.OrderOfPlan` | commands/permissions.go:253-305 | The plan in its order: creation, mode, owner; policy, providers, config, plugins. |
| `Repair.RepairAchieves` | commands/permissions.go:346-458 | After a run without failures the policy, and providers and config if present, are root:opksshuser with mode 640, every listed plugin file root:root with mode 640, and a missing plugins directory is there with mode 750 less the umask. |
| `Repair.OthersAreLeftAlone` | commands/permissions.go:346-458 | A repair leaves every other file as it was. |
| `Repair.WhatTracesMean` | commands/permissions.go:346-458 | A run has one state after another, each made by one planned operation and its answer. |
| `Repair.WhatCreationLeaves` | policy/files/fileperms_ops.go:58-118 | A creation adds the missing directories and the file, owned by root with the mode less the umask, and changes nothing else. |
| `Repair.WhatFailureLeaves` | policy/files/fileperms_ops.go:58-118 | A failing operation adds directories at most: the first ones that are missing, with the mode less the umask. |
| `Repair.WhatChangesDo` | policy/files/fileperms_ops.go:58-118 | A change of mode or owner changes that of one file. |
| `Repair.WithoutBits` | policy/files/fileperms_ops.go:58-118 | A bit of a new mode is set if and only if it was asked for and the umask does not withhold it. |
| `Permissions.AllWorked` | commands/permissions.go:346-458 | If no operation fails, all take effect in order. |
| `Permissions.NothingToChange` | commands/permissions.go:346-458 | If no operation has anything to change, nothing changes, whichever of them fail and however late. |
| `Permissions.AllBecomeSettled` | commands/permissions.go:346-458 | After the attribute changes of a plan, in order, each of them is settled: no later one disturbs an earlier one. |
| `Permissions.NextPlanIsSettled` | commands/permissions.go:250-458 | After a plan took effect the next plan has nothing left to change, for every starting file map. |
| `Permissions.SecondFixChangesNothing` | commands/permissions.go:250-458 | After a run without failures a second run leaves every file as it is, even if its own operations fail. |
| `Rights.MaskToRights` | policy/files/acl_windows.go:16-78 | The names of the bits in order, or the number if none has a name; reading the text gives the mask restricted to the supported bits, for every mask. |
| `Rights.RightsToMask` | policy/files/fileperms_ops_windows_acl.go:170-203 | The mask is the union of the bits of the rights whose names occur in the text, for every text. |
| `Rights.MarkOccurs` | policy/files/fileperms_ops_windows_acl.go:170-203 | A text that holds the name of a searched right holds its mark, a few characters in a row, with the rest of the name on either side. |
| `Rights.NameIsAlone` | policy/files/fileperms_ops_windows_acl.go:170-203 | No searched name occurs inside the name of another right. |
| `Rights.SearchIsMembership` | policy/files/fileperms_ops_windows_acl.go:170-203 | In names joined by commas, searching for a name finds it if and only if that right was joined. |
| `Rights.RightsActAsBits` | policy/files/fileperms_ops_windows_acl.go:170-203 | For every sequence of rights, in any order and with repeats, reading the joined names gives the union of their supported bits. |
| `Rights.PartsAreBits` | policy/files/acl_windows.go:16-78 | The rights named for a mask have exactly its supported bits. |
| `Rights.WhatIsNamed` | policy/files/acl_windows.go:16-78 | A right is named for a mask if and only if its bit is set. |
| `Rights.TextOfBit` | policy/files/acl_windows.go:16-78 | The text of a single bit is the name of its right. |
| `Rights.WhatBitsAreCalled` | policy/files/acl_windows.go:16-78 | The text of each of the eighteen bits, written out. |
| `Rights.WhatNamesMean` | policy/files/fileperms_ops_windows_acl.go:170-203 | The bit of each of the ten names searched for, written out. |
| `Rights.BitsAreApart` | policy/files/acl_windows.go:16-78 | No two rights share a bit. |
| `Rights.HexNamesNothing` | policy/files/acl_windows.go:74-76 | A mask written as a number names no right. |
| `Rights.HexReadsBack` | policy/files/acl_windows.go:74-76 | The hexadecimal digits of a number have its value and no leading zero. |

## Left out

- AddCommand.AddCmd.GetPolicyPath: the comment in the source says that true means the home policy; the code returns true for the system policy, and the model follows the code.
- AddCommand.AddCmd.Run: a failed write leaves any content the caller of the model chooses; the mode of an existing file is not changed by writing, as in the source.
- Audit.LaterBomDivides: stated for grants whose first field is bare and does not begin with a tilde.
- Audit.AuditPolicyFile: a validator is any function from a grant to one of three statuses; reasons, hints and the permission checks of the audit are not part of this model.
- Plugins.PluginEnforcer.CheckPolicies: results that the source updates through pointers are values in a sequence, updated by index; the command itself, YAML and base64 are functions of the world.
- Authorization.Decide: making the tokens for plugins either succeeds or not; what they are is a parameter.
- Enforcer.CheckPolicy: decoding of the token, of claims and of userinfo is an option value; case folding, lower-casing and glob matching are any functions, except that ASCII characters other than letters fold to themselves; the warning about unverified emails is not modelled.
- Loaders.Load: reading files, looking up users and the sudo helper script are option values.
- Verify.AuthorizedKeysLine: verifying the certificate and the decision come before it and are not part of it; the reader of options stands for sshd's, which is not part of the repository.
- Login.LoginCmd.LoginWithRefresh: the ssh config is a text of its own beside the files; key paths differ from it by `KeyStore.KeyNameIsSafe` except for a path the user names; the wait, the tokens and the certificates are parameters.
- Retry.LogoutTwice: the second run sees the same listing of names; what it does not find is not selected.
- Logout.LogoutCmd.Run: a directory listing has distinct names without a slash; files that cannot be removed are a fixed set; a config that cannot be read counts as none.
- Agent.OneThroughout: parsing of durations and integers is a parameter; what other programs do to the agent is a pair of events.
- Permissions.PermissionsCmd.Do: files and directories are a map of owners, groups and modes; what is created belongs to root, who runs the command.
- Permissions.PermissionsCmd.Fix: systems other than Windows only; the texts of actions and errors and the JSON output are not modelled.
- Text is a sequence of Unicode characters with U+FEFF for the three bytes of the byte order mark; invalid UTF-8 is not modelled.
- The shellquote package is replaced by a small splitter and joiner of our own; what a printed word looks like may differ for characters that need no quoting.
- OIDC login, the browser chooser, provider selection, token verification, cryptography and the encoding of SSH certificates.
- JSON and YAML decoding, the validation of single policy entries and its hints, and the permissions check command.
- Win32 calls, security identifiers, access control lists, the registry, elevation and version detection of OpenSSH.
- Command line wiring, log and message texts, and the timing of refreshes.
