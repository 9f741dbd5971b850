# The htmlclay models

A Dafny model of the parts of htmlclay where a mistake would damage a page, lose an event or hand out the
wrong name, and proofs of what those parts promise. `dafny verify dfyconfig.toml` checks all of it.

## What is modelled

**The JSON write engine** (`internal/dataapi`). A posted body is checked against the rules (`WritePlan`) and
walked rule by rule. `Walk` says what walking any rule tree against any body does to a page, part by part;
`Apply` is the writer that does it, with its lists paired with the rows on the page (`RowMatch`, `Alignment`)
and reconciled in place (`Dom`, `Rows`, `Clones`, `ListDiff`). `Rules`, `RoundTrip` and `PostBack` prove what comes of
it: what is written is read again, and posting back what was read does nothing, each with its exact
exceptions. Elements are paired with start tags to recover their byte spans (`PageTree`, `Spans`, `Offsets`),
and only the touched spans of the file are replaced (`TextSplice`, `Splice`). `WriteDocument` puts the parts
together, from the bytes of a file and a posted body to the bytes that replace it. One CSS custom property is
read and written inside a style attribute by `Scanner` and `StyleVars`; `StyleOpen` is about styles that leave
something open.

**Beside it**: the canonical encoding of page values (`Utf16`, `JsonText`, `Canonical`), the event queue between a
helper and its reader as interleaved steps (`EventQueue`), the transactions that change helper approvals
(`HelperConfig`, `HelperTransaction`), site labels over whole runs (`Slugs`), the buffered line reader
(`RecordLine`), the resuming frame reader (`WireStream`), and runtime URLs, the attributes that carry them and
the page turned there and back (`RuntimeUrl`, `RuntimeHtml`, `RuntimePage`). `Sequences`, `Orders`,
`TextOrder`, `Decimal` and `Values` hold what several of them share.

A page is a map of numbered nodes with ordered children and parent links. The objects the source updates in
place are classes: the writer, the pairing, the plan, the two configurations, the event queue. What they
compute is stated by functions and predicates, and what the source promises is proved about those. Every lemma
carries `{:induction false}`: no proof rests on automatic induction.

## Where a promise does not hold

- Posting back a read is not always silent (`Rules.PropSettled`, `Rules.RuleSettled` say exactly when it is): a
  settable property that reads null is written back as empty text; `@readOnly` on an element with a
  `readonly` attribute reads true and is compared under the other spelling; a list whose shape is a literal
  null reads null for every row and writes empty text.
- A custom property is read back as written unless its value itself ends in `!important` and it was not
  important before, or it is appended behind a style that leaves a quote, bracket or comment open
  (`StyleOpen.Keeps`). In the second case the new text joins what was open: the declaration left open takes it
  all in, and behind an open comment the value can end the comment and declare what it likes.
- A boolean attribute reads as its own name, whatever it was set to.
- In a list of scalars the text `1` and the number 1 have one key and still count as different.
- The buffered line reader would refuse a line of exactly the limit if the buffer size divided the limit plus
  one; the sizes in use do not.
- Restoring a forgotten label does not undo the forgetting of a key whose label was empty.
- A page comes back byte for byte exactly when it has no descriptor of its own and each attribute comes back. A
  descriptor of its own is taken out, and one that stands first is read in place of the one put in. A URL made
  local comes back when it is the first of the page with its local URL (`RuntimeUrl.FirstFor`); of the rolling and
  the exact URL of one file only the one written first does. A URL that was local to begin with, on a projected
  page or any other, is turned into a public one. A spelling comes back when it is kept by the shared tail or was
  the plainest one, and no quotes were added (`RuntimeHtml.ComesBack`).
- The comment on isContiguousRun speaks of rows in page order and sorts their positions; rows always come in
  page order from the selector, so the model does not sort them.

## Model

| member | source | states |
|---|---|---|
| Alignment.Align | internal/dataapi/rowmatch.go:286-333 | The table walk gives a complete in-order pairing of least total cost over all complete in-order pairings; of several it takes the one whose places in the longer list are lexicographically first. |
| Alignment.AlignInOrder | internal/dataapi/rowmatch.go:277-282 | The same for rows given by index in either list, whichever of the two is longer: strictly increasing on both sides, every row of the shorter list paired. |
| Alignment.WalkIsBest | internal/dataapi/rowmatch.go:286-333 | No other seating of the shorter list costs less than the walk, and none that costs the same comes before it. |
| Alignment.CellRange | internal/dataapi/rowmatch.go:286-320 | A table cell is the infinite mark just where too few columns are left, and any other cell stays below it, so the sums never run into it. |
| RowMatch.MatchRows | internal/dataapi/rowmatch.go:167-273 | For any lock vector: as many rows are paired as the shorter list has, none twice; the first use of every in-range lock is kept; a key unique on both free sides is paired with its twin; the leftovers are paired in order, first for fewest differing fields, then for least displacement; equal keys leave every row at its own place, duplicates included. |
| RowMatch.KeyAgreesWithCost | internal/dataapi/rowmatch.go:96-135 | Two items of an object shape have equal keys exactly when no field of the shape differs between them. |
| RowMatch.ScalarKeyIsCoarser | internal/dataapi/rowmatch.go:96-158 | On scalars keys and differences agree one way only: the text 1 and the number 1 share a key and differ. |
| RowMatch.ScaledCostIsLexicographic | internal/dataapi/rowmatch.go:115-135 | A pairing that is least in the scaled cost is least in differing fields, and among those least in displacement: no complete pairing displaces as much as one scale unit. |
| RowMatch.MovesStayBelowScale | internal/dataapi/rowmatch.go:263-271 | The displacement of any in-order pairing stays below the product of the list lengths plus one. |
| RowMatch.AlikeKeysStay | internal/dataapi/rowmatch.go:167-273 | When all new items have one key and all old rows one key, nothing moves. |
| Spans.TokenizeSource | internal/dataapi/offsets.go:51-84 | Token ranges follow one another from the first byte on, each as long as its raw text. |
| Spans.ReplayedIsLaminar | internal/dataapi/offsets.go:210-255 | Once the stack is empty, any two spans are apart or nested, and nested only below a tree ancestor. |
| Offsets.Pairing.Match | internal/dataapi/offsets.go:156-176 | One element against the next start tag: taken, left without a span when implied, or the end of the pairing. |
| Offsets.Pairing.Walk | internal/dataapi/offsets.go:134-151 | The recursive walk pairs exactly as reading the elements off in document order does, and records the template each piece of template content belongs to. |
| Offsets.Pairing.EndSpans | internal/dataapi/offsets.go:210-255 | The replay ends every begun span once; the spans are laminar and every end is accounted for: the element's own end tag, a tag that closed it, its void tag, or the end of the source. |
| Offsets.Pairing.PairAll | internal/dataapi/offsets.go:104-129 | Spans come out just when every element finds a tag and every tag an element. |
| Offsets.SourceSpans | internal/dataapi/offsets.go:104-129 | When all pair off: one tag to one element in order, laminar spans within the source, every end accounted for; otherwise no spans at all. |
| TextSplice.PatchInFront | internal/dataapi/splice.go:44-60 | Replacing one more range in front of those already replaced, from the back, is one step of replacing all of them at once. |
| TextSplice.OutsideKept | internal/dataapi/splice.go:44-60 | Every element of the text outside the replaced ranges is still there, moved by what the replacements before it grew or shrank. |
| TextSplice.TextLands | internal/dataapi/splice.go:44-60 | Every replacement text stands where its range stood. |
| Splice.FindLocated | internal/dataapi/splice.go:91-101 | The nearest element at or above a node that the source holds and the write did not copy. |
| Splice.HasAncestorIn | internal/dataapi/splice.go:103-110 | Whether one of the given elements is above the node, template content included. |
| Splice.CollectTargets | internal/dataapi/splice.go:23-37 | The elements to replace for all touched attached nodes; none at all when one of them has no place in the source. |
| Splice.ReplaceBackwards | internal/dataapi/splice.go:44-60 | Back to front equals all at once, and is given up exactly when two ranges overlap. |
| Splice.Splice | internal/dataapi/splice.go:23-70 | The result is the source with the span of each topmost touched element replaced when that text, parsed and rendered again, gives the full render; otherwise it is the full render. It is reported as changed just when it differs from the source. |
| Splice.StillAbove | internal/dataapi/splice.go:103-120 | What held an element when the page was parsed still holds it while it is attached. |
| Splice.TopmostApart | internal/dataapi/splice.go:38-53 | The topmost elements' spans never overlap. |
| Splice.ElsewhereKept | internal/dataapi/splice.go:38-60 | Every byte outside the replaced elements is kept, in order. |
| Rows.InsertedShows | internal/dataapi/listdiff.go:277-323 | Inserting a node puts it at exactly that index of the children the data API counts, and leaves text, comments and opted-out siblings in their order. |
| ListDiff.Writer.InsertAt | internal/dataapi/listdiff.go:277-323 | The same for the whole page: only the node's old and new parent change, and both are marked. |
| ListDiff.Writer.Remove | internal/dataapi/listdiff.go:328-340 | A row leaves the tree and its parent is marked, unless that would take the rules tag along, which is refused without a change. |
| ListDiff.Writer.RemoveUnmatched | internal/dataapi/listdiff.go:94-100 | With nothing refused, exactly the rows without an item are gone; in any case every changed node is marked. |
| ListDiff.Writer.PlaceRun | internal/dataapi/listdiff.go:102-112 | Moving row by row turns the counted children into prefix, rows in their new order, suffix; a run already in order is left alone. |
| ListDiff.Writer.PlaceGrown | internal/dataapi/listdiff.go:186-210 | Each grown row stands directly behind the row before it, and nothing else moves. |
| ListDiff.Writer.IsContiguousRun | internal/dataapi/listdiff.go:214-233 | Exactly when the rows fill a run of counted siblings under one parent. |
| Clones.CopiesJoin | internal/dataapi/listdiff.go:355-388 | Copies made earlier and copies made since mirror what they were made of together, once the one put in has lost its id. |
| Clones.ChildJoins | internal/dataapi/listdiff.go:355-388 | Copying one more child, at any depth, and putting it behind those before it leaves the tree as it was but for new nodes hung among new ones. |
| Clones.CopyStays | internal/dataapi/listdiff.go:355-388 | A finished copy stays one, of what is still there to be seen, while more is made. |
| ListDiff.Writer.CloneNode | internal/dataapi/listdiff.go:355-422 | At every depth the copy holds, in order, copies of the children that have not opted out, each like its own but for an id; nothing that was there changes, and exactly the new nodes are marked as copies. |
| ListDiff.Writer.Reconcile | internal/dataapi/listdiff.go:17-117 | With no removal refused: matched rows are the nodes they were, unmatched ones are gone; a grown row is, with all it holds, a new copy of a copy of the first row, or of the seed, without ids, opted-out nodes and mark, and what it holds hangs as it was made; a contiguous list stands as prefix, rows, suffix under its parent, one grown from nothing at the start of the seed's parent, another one keeps its rows where they are and strings the grown ones behind them. Matching every row with its own item changes and marks nothing. Whatever changed is marked, no node of the parsed page ever hangs under another parent, and new nodes hang below older ones. |
| Scanner.JoinSplit | internal/dataapi/stylevars.go:23-63 | Joining the parts of a style gives the style back. |
| Scanner.SplitJoin | internal/dataapi/stylevars.go:23-63 | Splitting joined parts gives the parts back, for parts that close what they open. |
| Scanner.SplitDeclarations | internal/dataapi/stylevars.go:23-63 | The byte loop over quotes, brackets and comments cuts exactly at the top-level semicolons. |
| StyleVars.ReadStyleVar | internal/dataapi/stylevars.go:119-134 | The last declaration of the name wins, unless an earlier one is important and it is not. |
| StyleVars.WriteStyleVar | internal/dataapi/stylevars.go:140-186 | The loop leaves the rewritten or appended style, or none when nothing is left in it. |
| StyleVars.RewriteReads | internal/dataapi/stylevars.go:140-186 | A property already there then reads as the new value, unless that value ends in an importance of its own and the property had none; an empty value takes it out; every other property reads as before. |
| StyleVars.AppendReads | internal/dataapi/stylevars.go:140-186 | The same for a property that was not there, behind a style that closes what it opens. |
| StyleOpen.OpenAppends | internal/dataapi/stylevars.go:140-186 | Behind a style that leaves something open the appended text is no declaration of its own: the parts are the old ones, the last grown by all that was appended. |
| StyleOpen.OpenReads | internal/dataapi/stylevars.go:119-186 | The value then never reads back. The property stays absent unless the value ends an open comment, and another property reads as before unless the open part declares it or the comment is ended. |
| StyleOpen.SwallowedGrows | internal/dataapi/stylevars.go:119-186 | What an open quote or bracket was declaring is still declared, with a longer value than before. |
| StyleOpen.WriteReads | internal/dataapi/stylevars.go:119-186 | For every style, a written value reads back exactly when it is empty, or replaces a property that was important or does not make itself so, or is appended behind a closed style and does not make itself important. |
| StyleOpen.CommentEscapes | internal/dataapi/stylevars.go:140-186 | Behind an open comment a value the policy lets through ends it and is read back as something else. |
| Rules.ReadBackKeeps | internal/dataapi/apply.go:283-382 | Writing back the value a name just read changes nothing exactly when the name is settled: not for a settable property that reads null, nor for a flag spelled one way on the element and the other in the rule. |
| Rules.BackIsSilent | internal/dataapi/apply.go:218-260 | The same for every scalar rule, through the element its selector finds. |
| Rules.ShallowerReads | internal/dataapi/extract.go:38-95 | A rule that can be read at some depth reads the same at any lesser one. |
| Rules.FieldsRead | internal/dataapi/extract.go:38-95 | An object result holds under each key what that key's rule reads. |
| Rules.FieldsHave | internal/dataapi/extract.go:38-95 | An object result has the rule's keys and no others, the swallowed __proto__ excepted. |
| RoundTrip.OneAttribute | internal/dataapi/apply.go:283-382 | A write through a name sets or takes off that name's attribute and leaves every other attribute alone. |
| RoundTrip.WrittenReads | internal/dataapi/apply.go:283-382 | What was written through a name is what the next read gives, exactly unless it is a boolean attribute given another value than its name, a flag read under its lower-case name, or a custom property that does not read back (`StyleOpen.Keeps`). |
| RoundTrip.UntitledIsTouched | internal/dataapi/apply.go:334-356 | An element without a title: the null read there is written back as an empty title. |
| RoundTrip.ReadOnlyIsTouched | internal/dataapi/apply.go:420-439 | A read-only input: true is read under one spelling and written under the other. |
| RoundTrip.NullListIsTouched | internal/dataapi/apply.go:164-216 | A list with a literal null for a shape and one row of text: it reads null, which is not settled. |
| Apply.ReplaceText | internal/dataapi/apply.go:463-509 | The content gives way to one text node that stands where the first replaced child stood; children that opted out keep their places; no other node changes. |
| Apply.ApplyScalar | internal/dataapi/apply.go:218-260 | For any value, exactly the edit the rule asks for is made at exactly the element it means, or recorded as refused, or the write fails; a list of texts is reconciled and written row by row. |
| Apply.MatchItems | internal/dataapi/listdiff.go:60-80 | For any items: twins are paired, the leftovers in order with fewest differing fields and then least displacement, and equal keys leave every row in place; it fails just when a row cannot be read. |
| Apply.WriteList | internal/dataapi/listdiff.go:17-182 | For any items, the rows found are reconciled with a best match of the items, and each item is written into its row in order, up to the first error; no items take every row out; without rows and seed it fails. The lists may be of any length. |
| Apply.ApplyAt | internal/dataapi/apply.go:164-216 | For any rule and any body, at any depth: every part of the body the rules have is written as its rule asks, on the page as the parts before it left it, up to the first error, and nothing else happens. Each changed node is marked. |
| PostBack.WentTold | internal/dataapi/apply.go:164-382 | Whatever such a walk is, when the body is what the rule read, and each of its lists is one whose cost sums fit the machine's integers, it touches no node, moves none, refuses nothing and fails nowhere exactly when the rules are settled, and otherwise leaves a mark, a refusal or an error. |
| PostBack.MatchedInPlace | internal/dataapi/rowmatch.go:167-273 | Items posted back as they were read, or as the nulls of a literal null shape, can only be matched each with its own row. |
| PostBack.ListReadsBack | internal/dataapi/listdiff.go:17-117 | What a list rule read comes back as its items, and these are settled exactly when the rule is. |
| WritePlan.Plan.CheckKeys | internal/dataapi/writeplan.go:28-64 | The walk adds exactly the unknown keys, under the paths from the root. |
| WritePlan.UnknownExact | internal/dataapi/writeplan.go:28-64 | A path is reported exactly when body and rules go together up to its last key and the rules do not have that one. |
| WritePlan.MissedExact | internal/dataapi/writeplan.go:66-112 | A path and selector are reported exactly when the scalar rule there is given a value and its selector matches nothing. |
| WritePlan.Plan.CheckTargets | internal/dataapi/writeplan.go:66-112 | The walk adds exactly the missed targets and fails just on an unreadable selector. |
| WritePlan.Plan.ValidateShape | internal/dataapi/apply.go:68-121 | The walk adds exactly the values of the wrong shape. |
| WritePlan.MisshapenExact | internal/dataapi/apply.go:68-121 | A path is reported, with what was asked for and what was there, exactly when rules and body both reach it and the body's value there is present and of another kind than the rule asks for. |
| WritePlan.ShapedExactly | internal/dataapi/apply.go:68-121 | Nothing is reported exactly when at every path that rules and body both reach the value is missing or of the kind asked for. |
| WriteDocument.PostedIsKnown | internal/dataapi/writeplan.go:28-64 | What a rule read has no key the rule does not define, at any depth. |
| WriteDocument.PostedIsShaped | internal/dataapi/apply.go:68-121 | What a rule read has the shape the rule asks for, at any depth. |
| WriteDocument.PostedMisses | internal/dataapi/writeplan.go:66-112 | Posting back a read misses a target exactly when a scalar rule outside lists matched nothing. |
| WriteDocument.WriteDocument | internal/dataapi/write.go:46-109 | Any body is turned down exactly for the unknown keys, missed targets and shapes found, and otherwise answered as the walk of the rules against it ends: failed, refused, unchanged or changed. A change keeps parsed nodes at home or out of the tree, and every difference is marked. |
| WriteDocument.PostedIsAnswered | internal/dataapi/write.go:46-109 | So posting back a read, with lists whose cost sums fit, is turned down exactly for scalar rules that match nothing, leaves the page unchanged exactly when the rules are settled, and does something else otherwise. |
| WriteDocument.ChangeStaysPut | internal/dataapi/splice.go:38-53 | After any write every node of the parsed page hangs where it did or is out of the tree. |
| WriteDocument.ChangeIsRooted | internal/dataapi/splice.go:72-120 | After any write the parent links lead up to the root: new nodes hang below older ones and parsed ones where they did. |
| WriteDocument.EditsApart | internal/dataapi/splice.go:38-53 | After any write, whatever was moved, grown or removed, the splice's edits do not overlap, so giving up for overlap never happens. |
| WriteDocument.WriteFile | internal/dataapi/write.go:46-109 | From the bytes of the file: an unchanged page gives the same bytes; a change gives the file with the spans of the topmost touched elements replaced, which never overlap, when that reads back as the page as written, and the page rendered anew otherwise; nothing is written when the body was turned down, refused or failed. |
| Utf16.Utf16Less | internal/pageadmission/pageadmission.go:597-605 | The loop compares by UTF-16 code units, a proper prefix first. |
| Utf16.EncodeInjective | internal/pageadmission/pageadmission.go:597-605 | Different texts have different code units. |
| Utf16.LessIsStrict | internal/pageadmission/pageadmission.go:597-605 | Any two different keys are in one order and no other, so sorting members has one result. |
| JsonText.CanonicalString | internal/pageadmission/pageadmission.go:607-637 | The loop writes the quoted spelling with the escapes of RFC 8785 section 3.2.2.2. |
| JsonText.SpelledReads | internal/pageadmission/pageadmission.go:607-689 | A decoder takes off exactly the value that was spelled, whatever follows it. |
| Canonical.Encode | internal/pageadmission/pageadmission.go:639-689 | The recursive encoder writes the spelling of the value's one form, members sorted at every depth. |
| Canonical.NormExact | internal/pageadmission/pageadmission.go:639-689 | Two values have one form exactly when they differ only in member order and in which number JSON cannot hold stands for null. |
| Canonical.EncodingExact | internal/pageadmission/pageadmission.go:639-689 | Two values are encoded alike exactly when they are so alike: the encoding does not depend on member order and confuses nothing else. |
| Canonical.EncodingDecodes | internal/pageadmission/pageadmission.go:639-689 | The encoding decodes to the value's one form. |
| EventQueue.Perform | cmd/htmlclay/jsonl.go:163-219 | Each critical section, signal and wake-up carried out on the queue object is the step of the system it stands for. |
| EventQueue.Carry | cmd/htmlclay/jsonl.go:157-219 | Any schedule of calls and steps carried out on the object sends accepted statuses in order and then the first terminal, and all of it once nothing is left to do. |
| EventQueue.StepKeeps | cmd/htmlclay/jsonl.go:163-219 | Every step of every caller and of the runner keeps what holds of the queue: order, the one terminal's whereabouts, who was let go, and a wake-up for pending work. |
| EventQueue.RunSendsWell | cmd/htmlclay/jsonl.go:163-219 | In every interleaving what was sent is accepted statuses in order, and once the terminal is out, with the last status accepted among them and the first terminal at the end. |
| EventQueue.NothingAfter | cmd/htmlclay/jsonl.go:194-219 | After the terminal nothing more is sent. |
| EventQueue.WinnerWaits | cmd/htmlclay/jsonl.go:163-185 | The emit whose terminal won returns only after it was sent. |
| EventQueue.StepWorks | cmd/htmlclay/jsonl.go:163-219 | Every step but a new call uses up a measure, so without new calls every run comes to rest. |
| EventQueue.RestIsComplete | cmd/htmlclay/jsonl.go:163-219 | When no step is left, nothing is pending, every call has returned, and the last status and the first terminal have been sent. |
| HelperConfig.SameRows | internal/config/helpers.go:78-105 | Sorted decisions with one row per name and document are determined by which rows there are. |
| HelperConfig.HelperStore.AddHelperProgram | internal/config/helpers.go:127-153 | A new registration is later than all others and goes last; a failure changes nothing. |
| HelperConfig.HelperStore.SetHelperAnyDocument | internal/config/helpers.go:195-206 | Only the one program's flag changes, and what it was is answered. |
| HelperConfig.HelperStore.RemoveHelperProgram | internal/config/helpers.go:182-193 | Exactly the registration of that id goes, order kept. |
| HelperConfig.HelperStore.DecideHelper | internal/config/helpers.go:225-257 | It succeeds exactly for an approval under a valid name of a registered program that replaces a row or finds room; then the row about the name and document is replaced or added, the list stays sorted, and the replaced row is answered; otherwise nothing changes. |
| HelperConfig.HelperStore.ForgetHelperDecision | internal/config/helpers.go:291-301 | Exactly the row about the name and document goes. |
| HelperConfig.HelperStore.RestoreHelperDecisions | internal/config/helpers.go:259-289 | Row by row, each is put back exactly when it is well formed, there is room and none about its name and document; the list ends up sorted and as much longer as is answered. |
| HelperConfig.HelperStore.ForgetHelperProgramDecisions | internal/config/helpers.go:304-324 | Exactly the approvals of the program go, and they are answered. |
| HelperConfig.TakenComeBack | internal/config/helpers.go:259-324 | Rows taken from a list all find room and none in their place, so restoring them gives back every row. |
| HelperConfig.HelperStore.RestoreHelperProgram | internal/config/helpers.go:155-172 | A registration is put back exactly when it is well formed, there is room and none has its id. |
| HelperConfig.ResolveHelper | internal/config/helpers.go:337-375 | An allowed decision with a registered program decides; otherwise the one program allowed for any document; otherwise all of that name are candidates. |
| HelperConfig.NeverPicks | internal/config/helpers.go:332-375 | Without an approval of its own it never picks between registrations of one name: decided exactly when one alone has it for any document, preset exactly when one alone has it at all, and otherwise every registration of the name is offered. |
| HelperTransaction.RollBack | cmd/htmlclay/helpers.go:459-473 | From any point of the transaction the rollback restores both lists element for element. |
| HelperTransaction.SaveDecisionSet | cmd/htmlclay/helpers.go:455-541 | With ids drawn anew it succeeds exactly when the disk saves, the names are valid, the programs known are registered, and there is room for the registrations and the new rows. On failure of any step both lists are what they were; on success every name resolves, decided and allowed, to the program chosen for it, and only the added registrations and flags differ. |
| HelperTransaction.SavesExactly | cmd/htmlclay/helpers.go:455-541 | The decisions can be recorded after the registrations exactly when that was so before them. |
| HelperTransaction.ManageProgram | cmd/htmlclay/programs.go:236-268 | A flag switched, approvals forgotten or a program removed, and both lists element for element as they were when it cannot be saved. |
| HelperTransaction.RecordedResolves | internal/config/helpers.go:337-350 | A recorded decision about a registered program resolves to it. |
| Slugs.NumberedSlugInjective | internal/config/config.go:500-505 | Different numbers have different labels. |
| Slugs.SlugConfig.Allocate | internal/config/config.go:406-423 | The search ends, at the first number from the counter on whose label is free, and the counter moves past it. |
| Slugs.SlugConfig.RetireNamed | internal/config/config.go:510-519 | Labels of the earlier shape are spent and their keys let go; no label is lost. |
| Slugs.SlugConfig.Dedupe | internal/config/config.go:525-551 | Of the keys on one label exactly the first in order keeps it, trusted folders before others; no label is lost. |
| Slugs.SlugConfig.Cap | internal/config/config.go:557-592 | Past the cap only keys of no trusted folder go, missing ones first and each group in order, just as many as needed, and their labels are spent. |
| Slugs.SlugConfig.LoadPasses | internal/config/config.go:918-920 | The three passes lose no label, keep the labels apart, and never evict a trusted folder's first key. |
| Slugs.SlugConfig.Restore | internal/config/config.go:458-472 | The label is issued to the key again and no longer spent. |
| Slugs.RunStaysConsistent | internal/config/config.go:404-472 | Over every run no two keys share a label, no issued label is spent, and the counter never goes back. |
| Slugs.AllocatedOnce | internal/config/config.go:404-423 | No two allocations of a run give the same label, even if it was dropped in between. |
| Slugs.RestoreUndoesForget | internal/config/config.go:436-472 | Forgetting a label and restoring it as a failed save does changes nothing, exactly unless the key's label was empty. |
| RecordLine.ReadRecordLine | internal/helper/jsonl.go:122-168 | For every input, buffer size and limit: the line up to the first line feed without the carriage return before it, or too large, or the end; and what is left is what follows the line. |
| RecordLine.AgreeExactly | internal/helper/jsonl.go:122-168 | The buffered reading agrees with splitting at line feeds on every input exactly when the buffer size does not divide the limit plus one. |
| RecordLine.SizesInUseAgree | internal/helper/runner.go:331-345 | With the buffer and limit in use the two agree on every input. |
| WireStream.ReadStream | cmd/htmlclay/wire_cli.go:952-983 | The loop hands over payloads and commits ids line by line. |
| WireStream.FeedCutFrame | cmd/htmlclay/wire_cli.go:944-983 | A frame cut off anywhere before its blank line is not delivered and its id not committed. |
| WireStream.ConnectionReads | cmd/htmlclay/wire_cli.go:944-983 | A connection cut anywhere, with comments in between and a torn last line, delivers a stretch of whole frames and is left at the id of the last. |
| WireStream.Follow | cmd/htmlclay/wire_cli.go:849-942 | Over any sequence of failed, served and cut connections, the frames from the first delivered to the last are delivered once each, in order and without a gap, and the resume id is the last one's. |
| RuntimeUrl.PiecesSplit | internal/clayruntime/resolve.go:176-192 | Path, query and hash put together split into themselves. |
| RuntimeUrl.LocalParses | internal/clayruntime/resolve.go:266-320 | A local URL parses into the version, path, query and hash it was made from. |
| RuntimeUrl.PublicParts | internal/clayruntime/resolve.go:266-320 | A rolling or exact URL is exactly the parts it parses into. |
| RuntimeUrl.CanonicalizeRuntimeURL | internal/clayruntime/resolve.go:427-505 | The two scans give the first entry for this very URL, then the first for its file, then the exact URL. |
| RuntimeUrl.TurnedBack | internal/clayruntime/resolve.go:427-505 | A local URL that entries were made for is turned into what the first of them was made from. |
| RuntimeUrl.RoundTrip | internal/clayruntime/resolve.go:334-505 | Every available rolling, exact or alias URL made local and turned back is itself, byte for byte, exactly when the first entry for its local URL is its own. |
| RuntimeUrl.ApartComeBack | internal/clayruntime/resolve.go:334-505 | Where no two URLs share a local URL, every one comes back. |
| RuntimeUrl.SharedLocal | internal/clayruntime/resolve.go:334-505 | The rolling and the exact URL of one bundled file are served as one: whichever is written first comes back, and the other is turned into it. |
| RuntimeUrl.CanonicalIs | internal/clayruntime/resolve.go:427-505 | A local URL is turned into a rolling or exact URL, or into an alias an entry names for it; never into one that is local. |
| RuntimeUrl.LocalIsTurned | internal/clayruntime/resolve.go:427-505 | A local URL that is not served under another is never left alone, whatever entries were made for the page. |
| RuntimeUrl.LocalIsLost | internal/clayruntime/resolve.go:334-505 | The local URL of any file and version is not served under another, and without entries is turned into the exact URL. |
| RuntimeUrl.Undescribed | internal/clayruntime/resolve.go:334-505 | Without entries the rolling URL of a bundled file, made local, is turned into the exact one. |
| RuntimeHtml.CountShared | internal/clayruntime/html.go:339-344 | The loop counts the longest tail both share. |
| RuntimeHtml.RespelledReads | internal/clayruntime/html.go:322-354 | However it was spelled and quoted, a rewritten attribute reads as the new URL, which holds no carriage return (a reader turns those into line feeds). |
| RuntimeHtml.RoundTripExactly | internal/clayruntime/html.go:322-354 | Quoted or bare, an attribute's bytes come back exactly when its spelling was kept and can be written again, or was the plainest one and no quotes were added. |
| RuntimeHtml.ApplySplices | internal/clayruntime/html.go:310-320 | Splices given in any order, made from the last one back, equal replacing all ranges at once. |
| RuntimePage.Survey | internal/clayruntime/html.go:397-436 | The loop refuses a page exactly when a file is missing or not bundled, or its URLs want more than one release. |
| RuntimePage.ProjectPage | internal/clayruntime/html.go:380-462 | A page is projected exactly when it is not refused: each URL that is served is replaced by its local one in its attribute's spelling, and the descriptor that names them stands before the first tag. |
| RuntimePage.CanonicalizePage | internal/clayruntime/html.go:466-503 | The first descriptor in the page is read, with none or one that cannot be read giving no entries; every descriptor goes; and every attribute found is turned back by those entries, all at once. |
| RuntimePage.TwiceIsOnce | internal/clayruntime/html.go:310-320 | Making the second edits in the page the first ones left is making both at once. |
| RuntimePage.ThereAndBack | internal/clayruntime/html.go:380-503 | Any page, projected, refused or untouched, and turned back is, byte for byte, the page it was exactly when it has no descriptor of its own and each attribute is restored, whatever the URLs, quotes and spellings. |
| RuntimePage.TurnedBy | internal/clayruntime/html.go:466-503 | A page without a descriptor of its own is turned back by the entries of its own URLs when a descriptor was put in that reads as what it was written from, and by none otherwise. |
| RuntimePage.RestoredExactly | internal/clayruntime/html.go:380-503 | With the descriptor, an attribute that was made local is restored exactly when its URL is the page's first with that local URL and its spelling comes back; one left alone, exactly when it is not a local URL. |
| RuntimePage.UnservedExactly | internal/clayruntime/html.go:466-503 | On a page that is not projected an attribute is restored exactly when it is not a local URL. |
| RuntimePage.OwnIsTaken | internal/clayruntime/html.go:466-503 | A page that is a descriptor and some text does not come back: the descriptor is gone. |
| RuntimePage.OwnHides | internal/clayruntime/html.go:466-503 | Behind a descriptor of the page's own that cannot be read, the rolling URL of a bundled file does not come back. |
| RuntimePage.ApartSpelling | internal/clayruntime/html.go:380-503 | Where no two URLs of the page share a local URL, only the spelling counts. |

## Left out

- Parsing, rendering, selectors, regular expressions and hashing: functions without a body of their own here; the engine is given them as values, and only what a proof needs is asked of them (`Apply.Reliable`: rows and seeds are counted elements, rows in page order).
- The content policy's tables and wording: predicates; a refusal records the node it was about, not its text.
- RowMatch.MatchRows: asks that cost totals stay below 2^62 (`RowMatch.FitsMachine`), a condition on the two lists' lengths and the shape's width alone; beyond it the source's machine integers can wrap, and what it then pairs is not said.
- Apply.ApplyAt: rules and body are finite values of any size. A list past that bound is paired by a function of which is asked only that it pairs no row twice and leaves items over only when there are more of them than rows; a best match is claimed for the others.
- PostBack.WentTold: asks that each list of the posted body stays within that bound at its own length (`PostBack.Measured`); nothing bounds the page.
- ListDiff.Writer.CloneNode: the content a copied template keeps apart from its children is not copied here; what was copied is stripped of ids on the way, where the source walks the finished copy once more.
- Spans.EqualFold: folds ASCII letters only, where the source also folds letters beyond them; the write engine takes folding as a function.
- The branch of placement for a row list whose reference node has no parent: a row found on the page has one.
- Error texts, paths in error messages, logging and the byte order mark.
- Canonical.Encode: text is in code points, before UTF-8; spelling a number is taken as done, and a value without a JSON form is not encoded.
- EventQueue.StepKeeps: delivery by `send` is one step; the wake channel is a flag, as its buffer holds one token.
- HelperConfig.HelperStore.RestoreHelperDecisions: the start is assumed sorted and unique, which is what loading leaves (normalizeHelpers is not modelled).
- HelperTransaction.SaveDecisionSet: time and ids are parameters; a save succeeds or fails as the world says; 64-bit time does not wrap. When it succeeds is said for draws that do not fail and do not hit the id of a candidate's unregistered program.
- Slugs.SlugConfig.Cap: whether a key still exists is an arbitrary predicate.
- RecordLine.ReadRecordLine: buffering is one step that yields a full buffer, a line, or the end.
- WireStream.Follow: a server that replays the frames above the resume id is taken for granted, as are ids that are plain text and payloads that decode; timeouts and backoff are not modelled.
- RuntimeUrl.RoundTrip: the document's origin and valid UTF-8 are parameters, the bundled releases are always given.
- RuntimePage.ThereAndBack: the scan of the source is given, its attributes and its descriptors; that of the page as served is taken to find them where they now stand, with the descriptor put in. Nothing is claimed where a lone `<` stands right between two descriptors, which then opens what follows. A descriptor whose own start tag carries a runtime URL is not modelled, nor the quick tests for pages without runtime URLs; the descriptor's JSON is read by a function that is given.
- Site registry, trust, routing, page conversion, processes, sockets and everything in `internal/platform`.
