# Game-server manager: verified core algorithms

The panel installs and updates game servers in containers, renders their start commands from blueprint
files, edits their configuration, looks after their Steam Workshop mods, and has sidecars for weather
data and decryption. This project models the parts of it that are algorithms and protocols in their own
right, and proves what they are for, for all inputs and all runs. `dafny verify dfyconfig.toml` checks
everything.

| file | what it models |
|---|---|
| `RingGeometry.dfy` | even-odd point-in-polygon test, bounding boxes, warning lookup |
| `GfsLoader.dfy` | the loader of weather model runs, with its disk after every single operation |
| `StartupTemplate.dfy` | the validator's and the renderer's token grammars, the word splitter between them |
| `ShellWords.dfy`, `QuotedText.dfy` | how commands are written, and the words the splitter reads from a writing |
| `StartupMeaning.dfy` | which commands are accepted and what becomes of one argument, over the text itself |
| `CommentStripper.dfy` | removal of comments from blueprint JSON |
| `CommentedText.dfy` | how texts with comments are written, and what stripping leaves of a writing |
| `IniEditor.dfy` | the line editor for INI files, from text to text |
| `IniFrame.dfy` | which line an edit writes or drops, and that all others stay |
| `PostInstall.dfy` | copy and link steps of a mod, readiness check, cleanup, over one file tree |
| `WorkshopBatch.dfy` | chunked downloads with a retry, the counters of a mod installation, the log buffer |
| `PortSubstitution.dfy` | port placeholders replaced one after the other |
| `ConfigProtection.dfy` | cache, operate, restore, clear around an install operation |
| `ProtectedNames.dfy` | which files are protected, by folder, stem and kind |
| `UpdateCycle.dfy` | check, perform, record for workshop mods |
| `DecryptionCache.dfy` | batches under two limits, the cache in front of single decryption |
| `TokenNames.dfy`, `PyText.dfy`, `Wrappers.dfy` | names of placeholders, string operations, option and result types |

Loops and objects of the source are methods and classes here. Each is proved equal to a specification
function, and the results below are about that function. What the functions compute is stated a second
time without them: a printer the splitter reads back, a writing the stripper takes the comments from, a
number that reads back as the port, the folders and kinds of protected files, the cases of a check. The network, the clock, containers, databases
and the cipher are parameters: the statements quantify over every way they can behave.

Where the code and what is said about it part ways, the model follows the code and a lemma says where:

- The published weather cycle can go back when something other than a download fails; `GfsLoader.Loader.Turn`
  says exactly when, and `GfsLoader.FailedDeletionGoesBack` shows it for a failed deletion.
- The key check admits keys with a leading blank. What is written under such a key is never found again,
  and every further edit adds a line (`IniEditor.SetTakesEffectIff`, `IniEditor.SetTextIdempotent`).
- Removing an INI key undoes setting it when the *first* block of the section is without the key and the
  line goes in before another header or after a final newline. Whether later blocks of the section hold
  the key plays no part, and text with carriage returns comes back translated (`IniEditor.RemoveUndoesSet`).
- Startup profiles are not token-checked and may not render (`StartupTemplate.ProfileStartupMayNotRender`);
  `StartupTemplate.RenderingFailsIff` says exactly which commands do not.
- Of two placeholders nested in each other the dictionary order decides, and only there
  (`PortSubstitution.OrderIff`). In the panel's own dictionaries that takes a name such as
  `CUSTOM_PORT_{GAME_PORT}` or `QUERY_{GAME_PORT}_PORT`, with the inner placeholder where the number
  stands (`PortSubstitution.PanelIff`, `PortSubstitution.OneNested`).
- An archive that could not be cleared comes back in the next run that finds nothing to protect, and an
  install directory has no protected files at all exactly when its path holds a part such as `/data/`
  (`ConfigProtection.StaleArchiveComesBack`, `ConfigProtection.ExcludedDirectoryProtectsNothing`).
- The table of mods admits several rows for one mod. Recording takes whichever the database gives first,
  a disabled one too, while the check looks at every enabled row. A round is a fixpoint exactly when no
  enabled row other than the recorded one of its mod is outdated (`UpdateCycle.RoundIsFixpoint`,
  `UpdateCycle.UnpickedRowStaysOutdated`, `UpdateCycle.DisabledRowTakesStamp`). A failed post-install step is
  recorded as a success (`UpdateCycle.FailedPostInstallNoticedIff`).
- The cleanup takes files that never belonged to the mod exactly when a target is a directory with such files
  below it (`PostInstall.CleanupTakesMoreIff`). A second run of the same actions leaves the tree as it is exactly
  when the directories above all linked sources are there (`PostInstall.RunIsReadyAndStable`).

## Model

| member | source | states |
|---|---|---|
| RingGeometry.InRingLoop | wetter-sidecar/server.py:305-314 | The pass over the vertices with its trailing index computes the parity of the crossed edges of the closed ring. |
| RingGeometry.CrossesIsOrientation | wetter-sidecar/server.py:311 | The comparison with the quotient is the sign of an orientation for an upward and a downward edge; end points count half-open, so nothing is divided by zero. |
| RingGeometry.CrossesSymmetric | wetter-sidecar/server.py:311 | An edge is crossed or not whichever end it is read from. |
| RingGeometry.PathParitySplit | wetter-sidecar/server.py:305-314 | Parity is additive where a path is cut. |
| RingGeometry.InRingRotated | wetter-sidecar/server.py:305-314 | The answer does not depend on the vertex the ring starts with. |
| RingGeometry.InRingReversed | wetter-sidecar/server.py:305-314 | The answer does not depend on the direction of the ring. |
| RingGeometry.InRingClosingPosition | wetter-sidecar/server.py:305-314 | Repeating the first position at the end (section 3.1.6 of RFC 7946) changes nothing. |
| RingGeometry.InRingChord | wetter-sidecar/server.py:305-314 | For every ring, chord and point the answer is the exclusive or of the answers for the two parts. |
| RingGeometry.InRingInsertOnEdge | wetter-sidecar/server.py:305-314 | A vertex inserted on any edge, the closing one included, changes nothing. |
| RingGeometry.TriangleMembership | wetter-sidecar/server.py:305-314 | For triangles of both orientations, also flat ones, the test is true strictly inside and false strictly outside. |
| RingGeometry.InRingIsFan | wetter-sidecar/server.py:305-314 | Every ring, self-intersecting or not, is the exclusive or of its fan of triangles; with the triangle result this says what the test means. |
| RingGeometry.ParityLeft | wetter-sidecar/server.py:305-314 | Left of all vertices the parity of a path is whether its ends lie on different sides of the horizontal line, so a ring is crossed an even number of times. |
| RingGeometry.InRingOutsideBox | wetter-sidecar/server.py:305-314 | A point outside any box that covers the ring is not in the ring, on each of the four sides. |
| RingGeometry.Collect | wetter-sidecar/server.py:291-299 | The recursion over nested coordinate arrays collects exactly the positions, in order. |
| RingGeometry.BoundingBox | wetter-sidecar/server.py:287-302 | The result is the least box around all positions, or the zero box when there are none. |
| RingGeometry.InPolygonTest | wetter-sidecar/server.py:317-320 | In the outer ring and in no hole; without rings never. |
| RingGeometry.InGeometryTest | wetter-sidecar/server.py:323-329 | Polygon, any polygon of a multi-polygon, and nothing else. |
| RingGeometry.HoleTakesAway | wetter-sidecar/server.py:317-320 | Every ring behind the first takes its own inside away. |
| RingGeometry.TriangleWithHole | wetter-sidecar/server.py:317-320 | Inside a triangle with a triangular hole a point is out inside the hole and in outside it. |
| RingGeometry.OnePolygonMore | wetter-sidecar/server.py:323-329 | Several polygons hold what any of them holds. |
| RingGeometry.BoxFilterIsSound | wetter-sidecar/server.py:287-329 | For every polygon or multi-polygon, with holes and empty rings, a point outside the computed box is not in the geometry. |
| RingGeometry.LoadWarning | wetter-sidecar/server.py:332-353 | A loaded warning carries the box of its own coordinates. |
| RingGeometry.WarningsFor | wetter-sidecar/server.py:360-371 | With the box consulted first the result is still the first three warnings, in list order, whose geometry contains the point. |
| RingGeometry.HitsParts | wetter-sidecar/server.py:360-371 | The hits warning by warning, in list order. |
| GfsLoader.RecentIsLatestCycle | wetter-sidecar/server.py:393-395 | The candidate is the latest instant of the six-hour grid that is at least five hours old. |
| GfsLoader.DeadlinesAre | wetter-sidecar/server.py:45 | The hours of a run are every third one of two days, in order. |
| GfsLoader.WholeFileIff | wetter-sidecar/server.py:398-416 | A file counts from a hundred thousand bytes on. |
| GfsLoader.Loader.LoadFile | wetter-sidecar/server.py:398-407 | A download succeeds exactly when it is complete and large enough; then the file is whole, and no other file changes either way. |
| GfsLoader.Loader.LoadHour | wetter-sidecar/server.py:414-418 | A whole file is kept without a download; otherwise the hour is there afterwards or the call fails. |
| GfsLoader.Loader.CollectRun | wetter-sidecar/server.py:413-418 | Success means all seventeen hours are there; a run that is complete needs no download. |
| GfsLoader.Loader.Publish | wetter-sidecar/server.py:419-428 | Through a draft that is moved into place, the state file names a complete run or stays as it was. |
| GfsLoader.Loader.DeleteOthers | wetter-sidecar/server.py:430-434 | In whatever order, all other runs go and the published one is not touched at any moment. |
| GfsLoader.Loader.Fetch | wetter-sidecar/server.py:410-434 | The outcome says how the attempt ends: fetched, no download, stopped by another fault before the publication, or published with a failed deletion; the state file changes exactly when the run was published, and a run that is complete never ends for want of a download. |
| GfsLoader.Loader.Turn | wetter-sidecar/server.py:441-459 | The published cycle goes back in a turn exactly when an older run is published after a newer one of the same turn whose deletion failed, after the attempt at the published run was stopped by a fault, or with a state file that could not be read while the clock is behind it. With failing downloads only it never does, and a given input of faults is shown under which it does. |
| GfsLoader.Loader.Live | wetter-sidecar/server.py:437-462 | Over any life, with any clock, downloads, faults and interruptions after any operation, the disk is good at every moment, and with failing downloads only the published cycle never goes back; then after every turn that can download what it asks for, a run at least as new as its clock allows stays published. |
| GfsLoader.TraceIsGood | wetter-sidecar/server.py:398-434 | At each moment of a history an existing state file lists only files present in its run folder with at least 100,000 bytes. |
| GfsLoader.TraceIsMonotone | wetter-sidecar/server.py:442-459 | Between any two moments of a history without other faults the published cycle does not go back or vanish. |
| GfsLoader.FailedDeletionGoesBack | wetter-sidecar/server.py:430-456 | At every time of day: a loader that finds the newest run and the one before it complete, and whose first deletion fails, publishes the newest run and in the same turn falls back to the older one. |
| GfsLoader.GoesBackIff | wetter-sidecar/server.py:451-459 | Among the attempts of a turn one publishes an older run than was published before it exactly when there is such a fault before it. |
| StartupTemplate.MatchesComplete | backend/blueprints/schema.py:160 | The left-to-right scan of the validator finds a token at every place where its grammar matches, because tokens hold no braces. |
| StartupTemplate.SplitKeepsOrder | backend/blueprints/renderer.py:142 | Every word is a selection of raw characters in order, and between two that are kept only quoting characters are skipped. |
| ShellWords.SplitOfWriting | backend/blueprints/renderer.py:142 | A command written as blanks, bare characters, backslash pairs and quoted stretches is read back as exactly its words; an unfinished end gives the error for an open quote or a lone backslash. |
| ShellWords.EveryTextIsWritten | backend/blueprints/renderer.py:142 | Every text is such a writing, up to an unfinished end. |
| ShellWords.SplitIff | backend/blueprints/renderer.py:142 | So the splitter gives a list of words exactly when the text is a writing of them. |
| ShellWords.SplitAtBlank | backend/blueprints/renderer.py:142 | An unquoted blank of any of the four kinds ends a word: two commands around it have the words of both. |
| ShellWords.SingleQuoted | backend/blueprints/renderer.py:142 | Single quotes keep everything. |
| ShellWords.DoubleQuoted | backend/blueprints/renderer.py:142 | Double quotes keep everything but a backslash before a quote or a backslash. |
| ShellWords.BackslashKeeps | backend/blueprints/renderer.py:142 | Outside quotes a backslash keeps the character behind it. |
| ShellWords.RenderedParts | backend/blueprints/renderer.py:142-189 | The arguments of two commands around a blank are those of the one and then those of the other. |
| StartupMeaning.CheckStartupIff | backend/blueprints/schema.py:418-451 | A command is accepted exactly when it holds no dollar sign, no backtick, no two ampersands or bars in a row, and every name in braces is one of the whitelist, a custom port with a number, or an environment key. |
| StartupMeaning.CheckEnvValueIff | backend/blueprints/schema.py:389-416 | The same for an environment value, with its shorter whitelist and without environment keys. |
| StartupMeaning.ProfileCheckIff | backend/blueprints/schema.py:523-531 | The command of a startup profile is refused exactly for four pairs of characters and three control characters. |
| StartupTemplate.RenderedTokenWasSeen | backend/blueprints/renderer.py:142-175 | A token the renderer finds in a word is, up to quoting characters that vanished, a stretch of the raw text the validator looked at. |
| StartupTemplate.RenderedTokenWasAccepted | backend/blueprints/schema.py:418-451 | In an accepted command every token the renderer finds in any word is one the validator accepted. |
| StartupTemplate.UnparsePieces | backend/blueprints/renderer.py:175 | Literal characters and tokens found by the scan make up the argument again, with nothing lost. |
| StartupTemplate.AllTokensEmptyMeaning | backend/blueprints/renderer.py:185 | The two counters being equal and positive, which leaves the argument out, means that there is a token and every token's value is empty. |
| StartupMeaning.ValueOfName | backend/blueprints/renderer.py:152-161 | The four names of the server have their own values, and every other name in the port table has the value there. |
| StartupMeaning.EnvironmentValue | backend/blueprints/renderer.py:162-164 | An environment key has its value, and is empty when there is none. |
| StartupMeaning.MissingPort | backend/blueprints/renderer.py:165-166 | A port of the whitelist or a custom one that the server does not have is empty. |
| StartupMeaning.ValueInEnvironment | backend/blueprints/renderer.py:92-100 | The values of names inside environment values, and which names have none. |
| StartupMeaning.NameReplaced | backend/blueprints/renderer.py:175 | In front of the first name in braces the text stays, the name becomes its value, and the rest is replaced by itself; without a value the whole fails. |
| StartupMeaning.LeftOutIff | backend/blueprints/renderer.py:176-188 | An argument is left out exactly when it is empty, or holds names and all of them have empty values. |
| StartupMeaning.PlainArgument | backend/blueprints/renderer.py:176-188 | Without an opening brace an argument is kept as it is. |
| StartupMeaning.NameAlone | backend/blueprints/renderer.py:175-188 | A name alone becomes its value, or nothing when that is empty. |
| StartupTemplate.SubstitutedNone | backend/blueprints/renderer.py:160-170 | Substitution fails exactly when some token of the argument has no value. |
| StartupTemplate.RenderPiecesLoop | backend/blueprints/renderer.py:144-188 | The loop with its two counters decides between error, dropped and kept argument by those meanings. |
| StartupTemplate.RenderArgv | backend/blueprints/renderer.py:142-189 | Split first, substitute inside each word afterwards, word by word and in order; a word that fails makes the whole fail. |
| StartupTemplate.GatheredNone | backend/blueprints/renderer.py:142-189 | The command fails with the unknown-token error exactly when some word does. |
| StartupTemplate.RenderTextUnknown | backend/blueprints/renderer.py:144-175 | A word fails exactly when the renderer's grammar matches a name without value anywhere in it. |
| StartupTemplate.RenderingFailsIff | backend/blueprints/renderer.py:142-175 | Any command that can be split, of a profile or not, fails with the unknown-token error exactly when some word holds a name that is no known token, port, environment value or custom port. |
| StartupTemplate.AcceptedStartupRenders | backend/blueprints/renderer.py:142-175 | Every `runtime.startup` the validator accepts renders without the unknown-token error, for all ports, environment values and names. |
| StartupTemplate.AcceptedEnvValueRenders | backend/blueprints/renderer.py:92-105 | Every environment value the validator accepts renders without the unknown-token error. |
| StartupTemplate.ArgumentsComeFromWords | backend/blueprints/renderer.py:143-189 | No value adds an argument: arguments come from distinct words, in order, and only dropped words are missing. |
| StartupTemplate.ProfileStartupMayNotRender | backend/blueprints/schema.py:523-531 | The placeholder of any unknown name passes the check of profile commands and cannot be rendered. |
| CommentStripper.UnchangedIff | backend/blueprints/schema.py:1535-1539 | A text is left as it is exactly when every comment that could start in it lies in a string literal. |
| CommentedText.StripOfWriting | backend/blueprints/schema.py:1535-1539 | Of a text written as literals, line comments up to their newline, block comments up to the first star-slash, and single characters, exactly the comments go. |
| CommentedText.EveryTextIsWritten | backend/blueprints/schema.py:1535-1539 | Every text is such a writing, unclosed quotes and comments included. |
| CommentedText.StripIff | backend/blueprints/schema.py:1535-1539 | So a text is the result exactly when it is what such a writing leaves without its comments. |
| CommentedText.LineCommentGoes | backend/blueprints/schema.py:1538 | Behind whole literals and other harmless text a line comment goes, and its newline and all that follows stay. |
| CommentedText.BlockCommentGoes | backend/blueprints/schema.py:1538 | A block comment goes with its end, and all that follows stays. |
| CommentStripper.MarkersInLiterals | backend/blueprints/schema.py:1535-1539 | In particular every text whose comment markers all lie in string literals is left unchanged. |
| CommentStripper.OpenTextLosesAllComments | backend/blueprints/schema.py:1535-1539 | Behind a quote that never closes no comment survives, which is what the second pass relies on. |
| CommentStripper.StripKeepsNoBlockEnd | backend/blueprints/schema.py:1535-1539 | Stripping does not create the end of a block comment where there was none. |
| CommentStripper.StripIdempotent | backend/blueprints/schema.py:1535-1539 | Stripping twice is stripping once, on every text, with unterminated strings and comments. |
| IniEditor.IniFile.SetValue | backend/games/ini_utils.py:16-82 | The file afterwards holds the specified text, created when it was missing. |
| IniEditor.IniFile.RemoveKey | backend/games/ini_utils.py:85-116 | The file afterwards holds the specified text; without file or key nothing is written. |
| IniEditor.SetLoop | backend/games/ini_utils.py:41-69 | The loop with its three flags overwrites the first key line of the first block, or inserts at the end of that block. |
| IniEditor.SetEdit | backend/games/ini_utils.py:35-79 | Loop and the two closing branches together compute the specified lines. |
| IniEditor.RemoveLoop | backend/games/ini_utils.py:96-112 | Exactly the first key line in any block of the section is dropped. |
| IniEditor.KeyLineIsLookup | backend/games/ini_utils.py:101-112 | There is such a line exactly when the look-up finds the key. |
| IniEditor.SetIsMapUpdate | backend/games/ini_utils.py:16-82 | The key then reads back as the new value and every other (section, key) pair as before, for repeated sections, duplicate keys, a missing section or no final newline. |
| IniEditor.SetTextIsMapUpdate | backend/games/ini_utils.py:16-82 | The same for the text that is read and the text that is written, a missing file included. |
| IniEditor.SetTakesEffectIff | backend/blueprints/schema.py:1063-1070 | Among the keys the check admits, exactly those without leading blank are found again. |
| IniEditor.MissingIsEmpty | backend/games/ini_utils.py:27-30 | A missing file is edited like an empty one. |
| IniEditor.JoinedCut | backend/games/ini_utils.py:32-33 | Reading into lines and writing them back gives the text. |
| IniEditor.CutJoined | backend/games/ini_utils.py:81-82 | Well-cut lines written to a file are read back as the same lines. |
| IniEditor.SetTextIdempotent | backend/games/ini_utils.py:32-82 | Setting the same value again on the re-read file changes nothing, exactly for keys without leading blank. |
| IniEditor.RemoveUndoesSet | backend/games/ini_utils.py:85-116 | Removing the key after setting it restores the old file exactly when the key has no leading blank, the text no carriage return, and the edit inserted one line into an ended first block. |
| IniFrame.TranslatedAt | backend/games/ini_utils.py:32-33 | Reading turns a carriage return, with or without a newline behind it, into one newline. |
| IniFrame.SetReplaces | backend/games/ini_utils.py:56-60 | When the first block of the section has the key, its first line there is replaced and every other line stays. |
| IniFrame.SetGoesBehind | backend/games/ini_utils.py:44-69 | Otherwise the entry goes to the end of that block, and every line stays. |
| IniFrame.SetAddsSection | backend/games/ini_utils.py:71-79 | A missing section comes at the end, behind a blank line unless the file ends with one, and every line stays. |
| IniFrame.TerminatedText | backend/games/ini_utils.py:64-74 | The only other change is a newline at the end of the file where one is missing. |
| IniFrame.RemoveNothing | backend/games/ini_utils.py:91-92 | A missing file, and one without the key, is left as it is, newlines included. |
| IniFrame.RemoveDropsFirst | backend/games/ini_utils.py:99-116 | The first line that sets the key in the section is dropped, and every other line stays. |
| IniFrame.RemoveKeepsOthers | backend/games/ini_utils.py:99-116 | Every other section and key reads as before. |
| IniFrame.RemoveShowsNext | backend/games/ini_utils.py:99-116 | The key then reads as its next line in the section, if there is one. |
| PostInstall.InstallDir.Run | backend/games/blueprint_plugin.py:1144-1215 | The loops over actions and sources, each action looking up its sources when its turn comes, compute the specified tree. |
| PostInstall.InstallDir.IsReady | backend/games/blueprint_plugin.py:1225-1253 | True exactly when every required action has a source and something stands at the target of every step of the plan, be it a link that leads nowhere. |
| PostInstall.ReadyIff | backend/games/blueprint_plugin.py:1225-1253 | The same for the specification: a missing target or a required action without a source makes the check false, and nothing else does. |
| PostInstall.GoneIsNotReady | backend/games/blueprint_plugin.py:1225-1253 | After a run, once the target of a step is gone while the sources are still there, the check is false again. |
| PostInstall.SourcesIff | backend/games/blueprint_plugin.py:1422-1433 | The sources of an action: what a fixed path leads to when there is something, and what each match of a glob leads to. |
| PostInstall.PlanIff | backend/games/blueprint_plugin.py:1157-1170 | The steps are the sources of all actions with their targets, in which the name is the last component of the source. |
| PostInstall.LinkWorksIff | backend/games/blueprint_plugin.py:1208-1213 | When exactly a link step works: an old link is replaced, a file in the place is an error. |
| PostInstall.CopyWorksIff | backend/games/blueprint_plugin.py:1172-1194 | When exactly a copy step works. |
| PostInstall.RunWorksIff | backend/games/blueprint_plugin.py:1156-1215 | A run works exactly when every required action has a source and the steps work one after the other. |
| PostInstall.InstallDir.Clean | backend/games/blueprint_plugin.py:1324-1418 | Targets first, while the sources are still there, then the two cache folders. |
| PostInstall.StepEffect | backend/games/blueprint_plugin.py:1163-1213 | Any step that works, onto a file, into a directory or through a link, leaves the source's content or a link to it at its place, makes directories above where it went and changes nothing else. |
| PostInstall.RunFollowsPlan | backend/games/blueprint_plugin.py:1159-1213 | When steps do not get into each other's way and no source looks at what they change, looking up all sources beforehand makes no difference. |
| PostInstall.RunEffect | backend/games/blueprint_plugin.py:1144-1215 | After such a run every step is done, the sources are what they were, and the rest is as before but for new directories above where the steps went. |
| PostInstall.RunIsReadyAndStable | backend/games/blueprint_plugin.py:1144-1253 | A successful run makes the readiness check true; a second run on the result succeeds and leaves the same tree exactly when the directories above the sources of all link steps are there beforehand or made by the run. |
| PostInstall.PresentRunIsStable | backend/games/blueprint_plugin.py:1144-1253 | When all sources are there, a second run succeeds and leaves the same tree. |
| PostInstall.CleanupRemoves | backend/games/blueprint_plugin.py:1324-1418 | In any regular tree the cleanup removes the targets it meets and the two cache folders with what is under them, and nothing else; it meets no path that was not a target at its start, and all of those when the sources do not look at what goes. |
| PostInstall.CleanupUndoesRun | backend/games/blueprint_plugin.py:1324-1418 | After a successful run the cleanup removes all targets of the run and the cache folders with what is under them; whatever else was there before, and is no place a copy was led to, is there as it was, and the only other traces are directories the run made. |
| PostInstall.CleanupTakesMoreIff | backend/games/blueprint_plugin.py:1324-1418 | After any successful run the cleanup takes something besides targets and cache folders exactly when some target is a directory with something foreign below it. |
| PostInstall.CopyIntoDirectoryIsNotUndone | backend/games/blueprint_plugin.py:1188-1193 | An instance: a copy onto an existing directory after which the cleanup removes a file that never belonged to the mod. |
| PostInstall.DanglingSourceIsNotStable | backend/games/blueprint_plugin.py:1187-1213 | An instance: a glob meets a dangling link, and running its link step a second time makes the directory of the missing place. |
| WorkshopBatch.ChunksCover | backend/games/blueprint_plugin.py:1048 | The chunks join to the id list in order, none is empty and none triggers the batch-size rejection. |
| WorkshopBatch.Downloader.Batch | backend/games/base.py:609-802 | The whole result: at most two container runs, the second one with exactly the ids that failed; an id is good exactly when a run it took part in made it so; without an account no run. |
| WorkshopBatch.TakeChunk | backend/games/blueprint_plugin.py:1068-1082 | Every id of a chunk is counted as applied or listed as an error, in order, and applied exactly when it is downloaded and its own post-install step works. |
| WorkshopBatch.CleanParts | backend/games/blueprint_plugin.py:1041 | Blank ids are left out, and every other one loses the white space at its ends, in order. |
| WorkshopBatch.VerdictsConserve | backend/games/blueprint_plugin.py:1055-1089 | Counted and listed ids together are all ids. |
| WorkshopBatch.RejectedParts | backend/games/blueprint_plugin.py:1068-1082 | The errors verdict by verdict: an id with a negative one is listed under its own name, in order. |
| WorkshopBatch.InstallMods | backend/games/blueprint_plugin.py:1041-1091 | Without exceptions `applied` plus the number of errors is the number of cleaned ids, no chunk costs more than two container runs, and when nothing fails there are no errors; an applied id was left installed by some run, and an id that every run leaves installed is applied whatever becomes of the others. |
| WorkshopBatch.LogBuffer.Append | backend/games/base.py:333-337 | The buffer is the longest end of its lines within the limit. |
| WorkshopBatch.LogBuffer.AppendAll | backend/games/base.py:333-337 | However many lines come in, the buffer is the longest end of the whole log within the limit. |
| WorkshopBatch.TailIsLongest | backend/games/base.py:333-337 | That end is within the limit and every longer end is not. |
| WorkshopBatch.TailForgets | backend/games/base.py:333-337 | Dropping old lines early loses nothing the later buffer would have kept. |
| PortSubstitution.Substitute | backend/games/blueprint_plugin.py:678-689 | The loop replaces one token after the other in dictionary order and gives up at an unset port it meets. |
| PortSubstitution.DecimalReadsBack | backend/games/blueprint_plugin.py:688 | What is written for a port reads back as the port, without leading zeros. |
| PortSubstitution.DecimalInjective | backend/games/blueprint_plugin.py:688 | Different ports are written differently. |
| PortSubstitution.PlaceholderBecomesNumber | backend/games/blueprint_plugin.py:678-689 | A placeholder with text around it: skipped exactly for an unset port or 0, and a number that reads back as the port otherwise, between the same text. |
| PortSubstitution.IteratedIsSimultaneous | backend/games/blueprint_plugin.py:678-689 | For dictionaries over any family of names told apart by shape, when no placeholder is nested in the name of another one, it is one simultaneous substitution of all set ports, and `None` exactly when a placeholder of an unset port occurs. |
| PortSubstitution.ReplacedThenSimultaneous | backend/games/blueprint_plugin.py:678-689 | Replacing one token first and the others at once is replacing all of them at once. |
| PortSubstitution.ReplacedKeepsOthers | backend/games/blueprint_plugin.py:678-689 | Replacing one token neither adds nor removes a placeholder of another one. |
| PortSubstitution.OrderPlaysNoPart | backend/games/blueprint_plugin.py:682 | Then two dictionaries with the same entries give the same result in any order. |
| PortSubstitution.NestingDependsOnOrder | backend/games/blueprint_plugin.py:678-689 | For every template that holds a nesting of such names anywhere there are a dictionary over them and a reordering of it with different results. |
| PortSubstitution.IntendedIff | backend/games/blueprint_plugin.py:678-689 | For all dictionaries over a family of names, that of all token names included, token by token is the simultaneous substitution exactly for templates without a nesting. |
| PortSubstitution.OrderIff | backend/games/blueprint_plugin.py:682 | The order plays no part for any dictionary over a family of names, exactly for templates without a nesting. |
| PortSubstitution.PanelNamesIff | backend/games/blueprint_plugin.py:531-544 | The names in the panel's dictionaries, of the fixed, the repeated and the custom roles, are such a family. |
| PortSubstitution.PanelIff | backend/games/blueprint_plugin.py:529-561 | For all dictionaries over these names token by token is the simultaneous substitution exactly for templates without a nesting of such names. |
| PortSubstitution.OneNested | backend/games/blueprint_plugin.py:678-689 | One placeholder inside a name is a nesting exactly when it is a name of the family and a number in its place makes another. |
| PortSubstitution.FormatBraces | backend/blueprints/schema.py:1031-1044 | Braces of the file format, as in a JSON seed file, are no nesting: it takes an opening brace followed by a name's first letter. |
| ConfigProtection.Server.Run | backend/games/updater.py:1140-1190 | Restoring and clearing happen whether or not the operation raised, and the tree is what the operation left with the unpacked archive over it. |
| ConfigProtection.Server.RunAll | backend/games/updater.py:1095-1190 | Over any sequence of runs each starts from what the one before left, and one that finds no old archive or writes its own brings back only files saved in the same run, all of them when caching and restoring succeed. |
| ConfigProtection.RunPreserves | backend/games/updater.py:1140-1190 | In any history, each run in which caching and restoring succeed, and that finds no archive left or saves something, gives every protected file its old content again and leaves every other path as its operation left it. |
| ConfigProtection.ProtectedFileSurvives | backend/games/updater.py:1095-1190 | Over any sequence of runs in which caching and restoring succeed a protected file keeps its content, whatever the operations do and whether or not archives could be cleared. |
| ConfigProtection.PreservesIff | backend/games/updater.py:952-1082 | This holds for all operations exactly when there is no old archive or this run writes its own. |
| ConfigProtection.StaleArchiveComesBack | backend/games/updater.py:1078-1082 | An old archive is unpacked over the new files when the run finds nothing to protect. |
| ConfigProtection.ExcludedDirectoryProtectsNothing | backend/games/updater.py:906-935 | An install directory has no protected files, whatever is in it, exactly when its own path holds an excluded part. |
| ConfigProtection.BroughtBackIff | backend/games/updater.py:990-1068 | What a run brings back: of what it saved, that which both steps got to; the old archive when it saved nothing. |
| ProtectedNames.ExcludedIff | backend/games/updater.py:920-925 | A path is excluded exactly when it leads through a folder whose name ends in one of four names, or is one of nine. |
| ProtectedNames.ShouldPreserveIff | backend/games/updater.py:906-938 | For any folder, stem and kind, capital letters playing no part: no binary kind, and JSON and text only up to two mebibytes. |
| ProtectedNames.ProtectedIff | backend/games/updater.py:878-938 | A file is protected exactly when it is outside those folders and of one of eight kinds, a `server*.properties` file, or a JSON or text file of at most two mebibytes. |
| ProtectedNames.NoKindNotProtected | backend/games/updater.py:878-903 | A file whose name has no kind is not protected. |
| ProtectedNames.ConfigurationSurvives | backend/games/updater.py:1095-1190 | A file of one of the eight kinds outside those folders keeps its content over any sequence of runs in which caching and restoring succeed. |
| UpdateCycle.Decide | backend/games/updater.py:452-522 | The nested branches over action, reason and status ask for work exactly when the folder is missing, the remote stamp is newer, or both stamps are known and the runtime copy is missing. |
| UpdateCycle.NeedsWorkIff | backend/games/updater.py:452-522 | By cases: a missing folder needs work, an unknown stamp does not, and two known ones do exactly for a newer remote stamp or a missing runtime copy. |
| UpdateCycle.ActionIff | backend/games/updater.py:452-522 | It is an update exactly for a newer version of a mod that is there, and an installation otherwise, with the reason. |
| UpdateCycle.Check | backend/games/updater.py:385-574 | The result lists, in load order, the enabled rows with an id that need work. |
| UpdateCycle.NeededIff | backend/games/updater.py:567 | An id is listed exactly when some enabled row with it needs work. |
| UpdateCycle.NeededParts | backend/games/updater.py:402-574 | The list row by row, in order. |
| UpdateCycle.Panel.Record | backend/games/updater.py:1400-1461 | The row the database gives for the id, enabled or not, gets the remote stamp, or the time of recording; no other row changes, and nothing is recorded exactly when no row has the id. |
| UpdateCycle.Panel.Perform | backend/games/base.py:1135-1210 | Every id asked for is applied and recorded, or listed as an error; the counts add up. |
| UpdateCycle.RecordedRow | backend/games/updater.py:1420-1451 | After all recordings a row is stamped exactly when its id was worked on with success and it is the row the database gives for that id, with the remote stamp when that is known and the time of recording otherwise. |
| UpdateCycle.NextCheckIff | backend/games/updater.py:402-574 | When exactly a row needs work again in the check after any round, successful or not, for any rows and any choice of the database. |
| UpdateCycle.RoundIsFixpoint | backend/games/updater.py:402-574 | After a round in which everything works the next check asks for nothing, with or without known stamps and API key, for all mods or the automatic ones, exactly when no enabled row other than the recorded one of its id is outdated. |
| UpdateCycle.DistinctRoundIsFixpoint | backend/games/updater.py:402-574 | Where no mod has two rows it asks for nothing, without any further condition. |
| UpdateCycle.FailedPostInstallNoticedIff | backend/games/blueprint_plugin.py:1068-1080 | A failed post-install step is recorded as a success, and noticed by the next check exactly when the remote stamp is known and the row was recorded or had a stamp. |
| UpdateCycle.UnpickedRowStaysOutdated | backend/games/updater.py:1421-1425 | With unchanged remote stamps an enabled outdated row that the database gives in no round is the same after any sequence of rounds, working or not, and every check asks for work on it. |
| UpdateCycle.DisabledRowTakesStamp | backend/games/updater.py:1421-1425 | An instance with a single enabled row: a disabled row of the same mod takes the stamp of a round in which everything works, and the next check asks again. |
| DecryptionCache.Batches | backend/models/dis_text.py:89-100 | Nothing is lost, repeated or reordered, every batch is non-empty and within both limits or a single value, and no other such cut has fewer batches. |
| DecryptionCache.GreedyKeepsAll | backend/models/dis_text.py:89-100 | From any open batch on, the batches join to what is open and what is still to come, all of them feasible. |
| DecryptionCache.GreedyStaysAhead | backend/models/dis_text.py:89-100 | The exchange argument: against any other cut, from any pair of states, greedy is at most one batch behind, and not behind when its open batch is the shorter one. |
| DecryptionCache.GreedyIsMinimal | backend/models/dis_text.py:89-100 | No cut into consecutive feasible batches has fewer batches. |
| DecryptionCache.Session.DecryptBulk | backend/models/dis_text.py:103-118 | Whatever batches and values fail, all texts returned are what single decryption gives, and there is one bulk call for each batch of the distinct values. |
| DecryptionCache.Session.ReadColumn | backend/models/dis_text.py:68-78 | A read gives what a read without any cache gives: a missing value and old plain text as they are, a ciphertext its own decryption; a cached value costs no call. |
| DecryptionCache.Session.Enter | backend/models/dis_text.py:142-163 | The outer texts stay available, when nothing fails every encrypted value of the query is there, and it costs as few bulk calls as the limits allow. |
| DecryptionCache.Session.Run | backend/models/dis_text.py:121-167 | Any program of reads and nested blocks gives exactly what single decryption gives, for every pattern of failures, and leaving a block restores the outer cache; when nothing fails and every ciphertext stands among the rows of a block around its read, none is decrypted by itself, at one bulk call for each batch of the blocks. |
| DecryptionCache.MeaningIsReads | backend/models/dis_text.py:68-78 | What a program gives is what its reads give one by one, up to the first that fails. |
| DecryptionCache.FeasibleIff | backend/models/dis_text.py:47-48 | The two limits of a batch. |

## Left out

- Floating-point rounding in the geometry; coordinates are exact reals and positions have two components. Malformed coordinates that make the original raise are outside the types.
- HTTP, `_orte_laden` and the log in the loader; the times written into `state.json` beside the cycle. A state file that cannot be read is one of the faults.
- GfsLoader.Loader.Live: the lifetime is a finite sequence of turns of any length, because the original loop has no end.
- StartupTemplate.RenderArgv: the template is given, because the choice among startup profiles needs files of the host; the table of port names and the value of `{MOD_ARG}` are given too.
- IniEditor.IniFile.SetValue: works on decoded text, because undecodable bytes are replaced on reading; making the directory of a new file is not modelled.
- PostInstall.InstallDir.RunAction: says nothing about the tree after a failure, because the failing step may have made directories or overwritten a file.
- PostInstall.RunIsReadyAndStable: asks that no step changes what another one looks at to find its place and that no source looks at what the steps change, because the steps are then independent of their order. Directories reached through links, links that lead to links, and the purge of the Conan cache before a copy are not part of this model, nor are file owners and times.
- PostInstall.CleanupUndoesRun: asks in addition that no source looks at what is below a target; without that `PostInstall.CleanupRemoves` still says what goes.
- WorkshopBatch.InstallMods: exceptions, which replace the whole result by one error, are not modelled. How a run's log and folders show that an id is installed is one outcome set for each run.
- CurseForge mods, and servers on remote nodes, for which the agent in `msm-agent/` does the file work with code of its own.
- PortSubstitution.IteratedIsSimultaneous: port numbers are natural numbers without an upper bound, in the exact conditions too.
- ProtectedNames.ProtectedIff: names follow the case-sensitive matching of a Linux file system.
- PortSubstitution.PanelIff: the panel's dictionaries are taken in every order, and numbered roles with every number.
- ConfigProtection.Server.Run: directories, links and file modes in the archive are not modelled, lower-casing is that of ASCII letters, and the operation terminates with a result or an exception.
- UpdateCycle.Panel.Perform: the status columns shown in the interface and the conversion of time stamps to text and back are not modelled. The row the database gives for an id is any row with it, fixed during a round.
- Encryption and decryption are abstract functions; errors of the bulk call other than the one that is caught end the program and are not modelled.
- Archive extraction, HTTP and GitHub sources, the plugin registry and the web interface: flag merging, counters and look-ups that would add easy members only.
