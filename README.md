# Disk share processor of an SMB2 server, in Dafny

This project models the request processor of a read-only SMB2 "disk" share.
It is the component that answers CREATE, CLOSE, QUERY_DIRECTORY, QUERY_INFO
and READ for one client connection, on top of a local directory tree (the
share root). The processor keeps two tables:

- the **handle table**, from a file id to an open: the name the client used,
  the local path it resolved to, and whether a durable handle was granted;
- the **enumeration cursors**, from a file id to the directory entries that
  still have to be reported. A client drains a directory over several
  QUERY_DIRECTORY calls, each limited by its output length.

The modules follow the structure of the processor.

- `Types` holds the error conditions (each NTSTATUS error packet or raised
  exception of the processor is one `Error`), `Result`, `Option`, bytes and
  file ids.
- `Align` holds the round-up-to-a-multiple arithmetic: 8-byte record
  padding and 4096-byte allocation units.
- `Chain` holds the next-entry-offset chains of the response buffers. Every
  entry points to the next one and the last holds 0. A reader who walks the
  offsets from 0 visits every entry where it was laid out.
- `Paths` holds path lookup. It converts backslashes to slashes, cleans the
  path lexically (the rules of `Pathname#cleanpath` for an absolute path)
  and checks that the result stays inside the share root. Both the guard as
  written and the corrected guard are modelled (see Findings). The two agree
  for every root other than `/`, and the processor uses the corrected one.
- `Wildcard` holds the SMB search patterns (`?`, `*`, `"` and the
  trailing-`?` rule) as a token matcher. It refuses the `<` and `>`
  operators.
- `Metadata` holds the filesystem nodes, the file attributes, the common
  time and size fields, and the directory information classes.
- `Enumeration` holds one QUERY_DIRECTORY pass as a specification
  function, with its budget, conservation, greediness and draining
  properties.
- `Contexts` holds CREATE context negotiation: which contexts are answered,
  which combinations are refused, which grant a durable handle, and how the
  answers are chained.
- `DiskProcessor` holds the `Processor` class with the two tables, its five
  handlers, and the loops that build the enumeration and the buffers. Each
  loop is proved against the specification functions above.

The filesystem is a value, `map<Path, Node>`, which the processor only
reads. Entries in a directory node are listed in sorted order. Record and
context sizes are the wire encoder's business, so they are passed as
functions. Only their padding, chaining and budget arithmetic are modelled.

Three behaviours of the code that a reader may not expect are kept:

- CLOSE removes the handle but leaves the enumeration cursor in place
  (`lib/ruby_smb/server/share/provider/disk.rb:25-33` never touches the
  cursor table).
- The handle's remote path is stored after the backslash-to-slash
  conversion (`disk.rb:41-42`, `disk.rb:115`). QUERY_INFO with the
  normalized-name class therefore reports a slash-separated name.
- An unknown file id is not looked up with an error. The Ruby code gets
  `nil` and fails where it first uses it. The model returns
  `InvalidHandle` at that point. A QUERY_INFO for the EA class never uses
  the path, so it succeeds even for an unknown id, and so does the model.

## Model

| member | source | states |
|---|---|---|
| Align.Pad8Properties | lib/ruby_smb/server/share/provider/disk.rb:174 | the padded record size is a multiple of 8, at least the size and less than 8 above it, the least such multiple, and 0 only for 0 |
| Align.Pad4096Properties | lib/ruby_smb/server/share/provider/disk.rb:307 | the allocation size is a multiple of 4096, at least the file size and less than 4096 above it, and the least such multiple |
| Chain.SumSnoc | lib/ruby_smb/server/share/provider/disk.rb:181 | the running total grows by exactly the size of the record appended |
| Chain.WalkFrom | lib/ruby_smb/server/share/provider/disk.rb:104-107 | followed from entry k, the next offsets reach every later entry at its start |
| Chain.WalkVisitsEveryEntry | lib/ruby_smb/server/share/provider/disk.rb:104-107 | with positive sizes, walking the chain from offset 0 visits every entry at its start in order, and the last entry ends at the total length |
| Chain.AlignedSums | lib/ruby_smb/server/share/provider/disk.rb:192-197 | when every entry size is a multiple of 8, every entry starts on an 8-byte boundary and the total is a multiple of 8 |
| Paths.ToSlashes | lib/ruby_smb/server/share/provider/disk.rb:41-42 | the converted name has the same length, no backslash, every backslash turned into a slash and every other character in place |
| Paths.Resolve | lib/ruby_smb/server/share/provider/disk.rb:283-286 | the corrected guard: a resolved path lies inside the share root; a path that leaves it is refused as a path escape; equal to the guard as written for every root other than `/` |
| Paths.SplitJoin | lib/ruby_smb/server/share/provider/disk.rb:284 | splitting a joined list of names gives the list back |
| Paths.SplitConcat | lib/ruby_smb/server/share/provider/disk.rb:284 | splitting root + "/" + path gives the names of the root followed by those of the path |
| Paths.CleanNormal | lib/ruby_smb/server/share/provider/disk.rb:284 | a cleaned path contains no empty, "." or ".." component |
| Paths.CleanKeepsNormal | lib/ruby_smb/server/share/provider/disk.rb:284 | cleaning leaves a path that has only ordinary components unchanged |
| Paths.CleanAppend | lib/ruby_smb/server/share/provider/disk.rb:284 | cleaning a concatenation is cleaning the second part from where the first left off |
| Paths.ContainedAsWrittenIsPrefix | lib/ruby_smb/server/share/provider/disk.rb:286 | for a root other than "/", the guard as written holds exactly when the root's components are a prefix of the path's |
| Paths.ContainedIsPrefix | lib/ruby_smb/server/share/provider/disk.rb:286 | the corrected guard holds exactly when the root's components are a prefix of the path's, for every root including "/" |
| Paths.GuardsAgreeBelowTop | lib/ruby_smb/server/share/provider/disk.rb:283-286 | for a root other than "/", the lookup as written and the corrected lookup agree on every path |
| Paths.ResolveCharacterized | lib/ruby_smb/server/share/provider/disk.rb:283-286 | the cleaned components are ordinary names; the lookup succeeds exactly when they start with the root's components, and returns their joined form |
| Paths.ResolvedIsClean | lib/ruby_smb/server/share/provider/disk.rb:284 | a resolved path is already clean: splitting and joining it gives it back |
| Paths.TopRootAsWritten | lib/ruby_smb/server/share/provider/disk.rb:286 | with root "/", the guard as written admits only paths that clean to "/" itself, while the corrected lookup admits every path |
| Paths.TopRootCounterexample | lib/ruby_smb/server/share/provider/disk.rb:286 | with root "/", "etc" is refused as written and resolves to "/etc" when corrected |
| Paths.EscapeIsRefused | lib/ruby_smb/server/share/provider/disk.rb:284-286 | "../etc/passwd" below "/srv/share" is refused as a path escape |
| Paths.ChildOfDirectory | lib/ruby_smb/server/share/provider/disk.rb:151-170 | a child's parent is the directory and its basename is its name; it is neither the directory nor the directory's parent, so it is listed under its own name |
| Paths.ParentOfSelf | lib/ruby_smb/server/share/provider/disk.rb:152 | a clean path is its own parent exactly when it is "/" |
| Wildcard.CompileRefusal | lib/ruby_smb/server/share/provider/disk.rb:312-318 | a pattern is refused, as not implemented, exactly when it is neither "*.*" nor empty and contains "<" or ">" |
| Wildcard.MatchEverything | lib/ruby_smb/server/share/provider/disk.rb:313-323 | "*.*" and the empty pattern match everything, and so does "*" |
| Wildcard.PlainTokensMatch | lib/ruby_smb/server/share/provider/disk.rb:320-324 | a pattern without "?" or "*" matches exactly its literal text, with '"' read as "." |
| Wildcard.PlainPatternMatchesItself | lib/ruby_smb/server/share/provider/disk.rb:312-325 | a compiled plain pattern matches a name exactly when the name is its literal text |
| Wildcard.UpToRun | lib/ruby_smb/server/share/provider/disk.rb:321 | a plain body followed by n trailing "?" matches exactly the names that are the body followed by at most n characters |
| Wildcard.CompileExamples | lib/ruby_smb/server/share/provider/disk.rb:321-322 | an inner "?" becomes a single-character token and a trailing run of "?" becomes one at-most-n token |
| Wildcard.SingleQuestionExamples | lib/ruby_smb/server/share/provider/disk.rb:322 | "a?c" matches "abc" but neither "ac" nor "abbc" |
| Wildcard.TrailingQuestionExamples | lib/ruby_smb/server/share/provider/disk.rb:321 | "a??" matches "ab" and "abc" but not "abcd" |
| Metadata.BuildFileAttributes | lib/ruby_smb/server/share/provider/disk.rb:251-259 | the normal flag is set exactly for regular files and the directory flag exactly for directories, never both |
| Metadata.CommonInfoOf | lib/ruby_smb/server/share/provider/disk.rb:295-310 | the times come from the node's status; end of file and allocation size are present exactly for regular files, the first the content length and the second that length rounded up to 4096 |
| Metadata.DirClassOf | lib/ruby_smb/server/share/provider/disk.rb:261-273 | only the id-both-directory and full-directory classes are accepted; any other class is not implemented |
| Enumeration.InitialCursor | lib/ruby_smb/server/share/provider/disk.rb:150-154 | a fresh cursor starts with the directory, then its parent unless it is its own parent, then exactly one child path per directory entry, in listing order |
| Enumeration.InitialDisplayNames | lib/ruby_smb/server/share/provider/disk.rb:150-167 | the names a fresh cursor of a clean directory reports are `.`, then `..` unless the directory is its own parent, then the entry names in listing order |
| Enumeration.MatchingAppend | lib/ruby_smb/server/share/provider/disk.rb:159-171 | the reportable records of two cursor pieces are those of the first followed by those of the second |
| Enumeration.PassSkips | lib/ruby_smb/server/share/provider/disk.rb:160-171 | an entry that is neither a file nor a directory, or whose display name does not match, is dropped and the pass goes on |
| Enumeration.PassStops | lib/ruby_smb/server/share/provider/disk.rb:174-177 | a reportable record that does not fit ends the pass with nothing more taken, and its entry stays at the head of the cursor |
| Enumeration.PassTakes | lib/ruby_smb/server/share/provider/disk.rb:173-183 | outside single mode, a reportable record that fits is taken and the pass goes on with the budget reduced by its padded size |
| Enumeration.PassBudget | lib/ruby_smb/server/share/provider/disk.rb:174-181 | the padded sizes of the records of one pass add up to no more than the output length |
| Enumeration.PassRest | lib/ruby_smb/server/share/provider/disk.rb:160-177 | the cursor left behind is a suffix of the cursor the pass started with |
| Enumeration.PassConserves | lib/ruby_smb/server/share/provider/disk.rb:159-183 | the records returned followed by the records still reportable from the remaining cursor are exactly the records reportable from the starting cursor |
| Enumeration.PassShape | lib/ruby_smb/server/share/provider/disk.rb:159-183 | one pass fits the budget, leaves a suffix, returns the records of the consumed prefix with nothing lost or repeated, returns at most one record in single mode, and consumes something whenever it returns something |
| Enumeration.PassEmpty | lib/ruby_smb/server/share/provider/disk.rb:175-188 | a pass returns nothing exactly when nothing is left to report or the next record alone exceeds the output length |
| Enumeration.PassIsGreedy | lib/ruby_smb/server/share/provider/disk.rb:175-178 | outside single mode, a pass stops only at the end of the cursor or at a reportable record that does not fit |
| Enumeration.DrainReturnsAll | lib/ruby_smb/server/share/provider/disk.rb:150-188 | when every record fits the output length, repeated calls return every reportable entry exactly once, in cursor order |
| Enumeration.DisplayNames | lib/ruby_smb/server/share/provider/disk.rb:163-170 | the directory is listed as ".", its parent as "..", and a child under its own name |
| Contexts.Negotiate | lib/ruby_smb/server/share/provider/disk.rb:58-100 | a conflicting combination of durable-handle contexts refuses the CREATE with an invalid parameter; otherwise every context gets its answer in request order, and the handle is durable exactly when a durable answer was given |
| Contexts.GrantsDurableSnoc | lib/ruby_smb/server/share/provider/disk.rb:70-80 | appending an answer makes the handle durable exactly when it already was or the answer is a durable grant |
| Contexts.ConflictRule | lib/ruby_smb/server/share/provider/disk.rb:62-78 | a request conflicts exactly when it asks for a version 1 durable handle without a reconnect and for a version 2 one or a version 2 reconnect, or asks for a version 2 durable handle with any other durable-handle context |
| Contexts.GrantedDurable | lib/ruby_smb/server/share/provider/disk.rb:60-84 | the answers to any part of a request contain a durable grant exactly when that part has a version 1 request not cancelled by a reconnect, or a version 2 request |
| Contexts.DurableRule | lib/ruby_smb/server/share/provider/disk.rb:60-84 | the handle is durable exactly when a version 1 request without a reconnect, or a version 2 request, was made |
| Contexts.BothVersionsConflict | lib/ruby_smb/server/share/provider/disk.rb:72-78 | asking for both durable-handle versions is always refused |
| Contexts.NoDurableGrantedWithReconnect | lib/ruby_smb/server/share/provider/disk.rb:62 | with a reconnect in the request, no version 1 durable grant is ever answered |
| Contexts.DurableWithReconnectSkipped | lib/ruby_smb/server/share/provider/disk.rb:62-68 | a version 1 request with a reconnect and without version 2 is skipped without refusal |
| Contexts.AnswersFollowRequests | lib/ruby_smb/server/share/provider/disk.rb:58-99 | there are no more answers than requests, and each answer carries the name of a requested context |
| Contexts.LinkContexts | lib/ruby_smb/server/share/provider/disk.rb:102-107 | the answers keep their order, each points to the next by its own size, and the last holds 0 |
| DiskProcessor.ReadRule | lib/ruby_smb/server/share/provider/disk.rb:231-246 | a read succeeds exactly when the offset is inside the file, the length is positive and the bytes available reach the minimum; it then returns the file's bytes from the offset, as many as asked or as remain, and their count; otherwise end of file |
| DiskProcessor.ReadExamples | lib/ruby_smb/server/share/provider/disk.rb:231-241 | a 10-byte read of a 5-byte file returns all 5 bytes with a minimum of 1 and end of file with a minimum of 6 |
| DiskProcessor.BuildBuffer | lib/ruby_smb/server/share/provider/disk.rb:192-198 | the buffer holds the records in order, each padded to 8 bytes, with next offsets forming the chain, and its length is the sum of the padded sizes |
| DiskProcessor.LayoutProperties | lib/ruby_smb/server/share/provider/disk.rb:174-198 | every record starts on an 8-byte boundary, the buffer length is a multiple of 8, each record but the last points to the next by its padded size, the last holds 0, and walking the chain visits every record |
| DiskProcessor.LinkedChain | lib/ruby_smb/server/share/provider/disk.rb:102-109 | the context answers are chained so that walking from the first visits each one at its start, the last holding 0 |
| DiskProcessor.Scan | lib/ruby_smb/server/share/provider/disk.rb:159-183 | the enumeration loop returns exactly the records and the remaining cursor of one pass |
| DiskProcessor.OpenCloseClose | lib/ruby_smb/server/share/provider/disk.rb:25-33 | after an open, the first CLOSE succeeds exactly when the open did, a second CLOSE of the same id fails with an invalid handle, and the handle table is as before |
| DiskProcessor.Processor.constructor | lib/ruby_smb/server/share/provider/disk.rb:12-16 | a new processor has an empty handle table and no cursors |
| DiskProcessor.Processor.Close | lib/ruby_smb/server/share/provider/disk.rb:25-33 | the handle is removed and nothing else; the response carries the post-query flag and the file's metadata; an unknown id fails with an invalid handle |
| DiskProcessor.Processor.Create | lib/ruby_smb/server/share/provider/disk.rb:35-117 | only open-existing is implemented; a name outside the share is refused, a missing file is not found, a conflicting context set is an invalid parameter (the name is resolved with the corrected guard); a success records exactly one new handle with the slash form of the name, answers the contexts in order and chains them at offset 152 |
| DiskProcessor.Processor.QueryDirectory | lib/ruby_smb/server/share/provider/disk.rb:119-200 | unsupported classes and patterns are not implemented, a non-directory handle is an invalid parameter; otherwise one pass over the cursor (fresh on first use, reopen or restart) is stored back as the cursor, and returns no more files when it finds nothing or the laid-out buffer |
| DiskProcessor.Processor.QueryInfo | lib/ruby_smb/server/share/provider/disk.rb:202-224 | only the file info type with the EA, network-open and normalized-name classes succeeds; EA answers the EA record for any id; network-open answers the common information of the opened node and carries exactly one of the file and directory attributes; normalized-name returns the slash form of the opened name; an unknown id for those two is an invalid handle; any other type or class is not implemented |
| DiskProcessor.Processor.Read | lib/ruby_smb/server/share/provider/disk.rb:226-247 | only the plain channel is implemented and an unknown id is an invalid handle; READ of a directory is a filesystem fault; on a regular file it succeeds exactly when the offset is inside the file, the length is positive and the available bytes reach the minimum, returning the file's bytes at the offset, as many as asked or as remain; otherwise end of file |

## Left out

- Wire encoding is left out: the BinData structures, the SMB2 header and the byte layout of the records and contexts. Sizes enter as functions, and buffers are lists of records with their offsets and padded lengths.
- The file id is left out: it is a CRC-32 of the path and a random value, both supplied by the caller of `Create` as `newId`.
- Logging warnings and the fallback when the filesystem cannot report a creation time are left out; an absent creation time is `None`.
- Ruby's regular-expression engine is not modelled: the matcher is a token matcher over whole names. It agrees with the regex for names without line breaks, since `^`, `$` and `.` treat line breaks specially.
- `Pathname#children.sort`: directory nodes list their entries already in sorted order, and the model does not sort them.
- The share's constructor and its `File.expand_path` normalisation of the root are left out; the root is given as a path.
- `maximal_access` is the constant read-attributes and read-data mask, 0x81; the path it is given is ignored, as in the code.
- The probe of the information class with the processor's own source file as the path is modelled as the class check it amounts to.
- Errors raised deep inside the filesystem are not modelled in general. The one kept is opening a directory for READ, reported as a filesystem fault.
- Handlers that crash on an unknown file id are modelled as returning `InvalidHandle`.
- DiskProcessor.Processor.Create: resolves the name with the corrected containment guard from Findings rather than the one written at `disk.rb:286`. The two differ only for the share root `/`, where the code refuses every name but the root itself.
- The CREATE context buffer offset is the constant 152, the 64-byte SMB2 header plus the 88-byte fixed part of the CREATE response; the code reads it from the encoder (`response.buffer.abs_offset`, `disk.rb:108`).
- The `.encode` calls on names (`disk.rb:42`, `disk.rb:137`, `disk.rb:284`) are not modelled: names are character sequences, and no transcoding takes place.
- DiskProcessor.Processor.Close: the model states its result for a handle table whose handles all name existing files, which `Valid` keeps. The filesystem does not change under the processor, so the code's crash on a vanished file is not modelled.

## Findings

| source | as written | input that shows it | evidently intended | confidence | as-written member | corrected member |
|---|---|---|---|---|---|---|
| lib/ruby_smb/server/share/provider/disk.rb:286 | the containment guard accepts a path equal to the root or starting with root + "/" | share root "/" and CREATE name "etc": the cleaned path "/etc" does not start with "//", so the open is refused; only "/" itself passes | a path is inside the root when it is the root or starts with the root followed by exactly one separator | not executed | Paths.TopRootCounterexample | Paths.ContainedIsPrefix |
