# ents kernel, verified model

A Dafny model of the kernel of a Git-native forge.  Commits form an immutable, growing, acyclic store; refs map names to
tips; everything the kernel decides is a function of the two.

- **Queries.** `Query`, `Parse` and `RoundTrip` are the commit-query language, its recursive-descent parser and the round
  trip through its printed form; `RevText` and `Meaning` say what its texts stand for.  `Denotation` says what a query
  means; `Eval` is the evaluator with its caches, generation-pruned search (`CommitCache`), two-colour walk
  (`PaintDown`) and incremental form (`Incremental`); `Obligations`, `Limits` and `Batches` carry its laws over runs and
  say exactly where they stop; `Dependencies` decides which effects a trigger is downstream of.
- **Gate.** `Namespace`, `Signature`, `GateObjects` and `Gate` are the admission judgment.  `GateLaws`, `GateBinding`
  and `GateTables` say what one verdict means, the last by literal refnames and fields; `GateRuns` is the state machine
  of any number of writers reading, judging and swapping in every interleaving; `GateSafety` and `GateEpoch` are what
  its runs keep; `Push` is the hosted hook; `GateWitness` is a small repository for the runs that go wrong.
- **Rules.** `GateRules` is the denial rules and their fixpoint, `RuleLedger` whole runs of clean transactions.
- **Anchors.** `Lines`, `Anchor` and `Context` map line ranges through diff hunks and through the context fallback.
- **Effects.** `Writeback` and `RunLoop` are results, batches, retries and the hosted drain; `Checkout` writes trees to
  disk.

`Graph` and `Objects` are the state all of them share; `Text` holds the string operations.

Where the source updates state, the model is a class or a method with loops proved against a specification function or
predicate; where it only computes, it is functions and lemmas.

## What the model takes as given

- Strings are characters where the source handles bytes; every byte the source compares is ASCII.
- Iteration order of hash sets and ref stores, and the tie-break between equal generations, are left open.
- Decoding a tree as a typed entity, and the blobs behind its entries, are attributes of the tree object.
- Signature verification, UTF-8 validity, refname validity, object hashing, sandbox outcomes and how `receive` ends a
  write are parameters.  A commit header is folded and printed as `gix-object` does.
- Generation numbers saturate at the 64-bit bound; the walks assume fewer objects than that.
- A line diff is any hunk list in order, apart, and with equal lines between hunks.
- A step of the gate's state machine reads one snapshot per verdict; the writer's own earlier read of the ref is a
  separate step, as in `receive`.

## Where the code departs from its words

- `results(...)` membership of a single commit ignores reachability, full evaluation does not
  (`Denotation.MemberIsDenoted`); incremental and full difference agree on reachable commits.
- Deleting a ref that hid a later lookup candidate can let commits in that the incremental form does not report
  (`Limits.NameExactIff`).
- An effect name holding `(`, `)`, `|`, `&` or the like parses, but its namespace is no valid ref pattern, so its
  incremental entry set is always empty (`Limits.ResultsFootprintIff`).
- When two reachable commits share a moved short oid, the incremental form looks at one of them only
  (`Limits.AmbiguousShortIff`, `Limits.AmbiguousShortDropsOne`).
- A result recorded for a commit no ref reaches yet makes a later obligation go unreported incrementally
  (`Limits.EarlyResultIsMissed`); `Obligations.StepKeepsObligationIff` is the exact condition.
- `receive` computes each movement's work set on the refs as they are after the whole transaction, so a commit two of
  its movements bring in together is scheduled by neither (`Batches.BatchSchedulesIff`, `Batches.JointMoveIsMissed`).
- A write-back error may come back after the result ref moved, when matching effects against the step fails: the commit
  reported as failed is then already discharged, and a retry does not resume from it (`RunLoop.Worker.RunAndRetry`).
- The comments on `all_roots` speak of paths that end at a missing object; the code fails there, and only a non-commit
  ends a path.
- A config whose objects are absent at its verdict passes as pre-epoch even if it records an epoch
  (`GateEpoch.UndecidedConfigSlipsThroughIff`).
- `receive` swaps on its own earlier read, not on the tip its verdict was about.  Under an epoch the two cannot disagree
  harmfully (`GateRuns.RunAdvances`); before it they can (`GateEpoch.StaleReadLosesHistory`), exactly when the new tip
  does not descend from that read (`GateEpoch.ReadDecidesHistoryIff`).
- The pre-receive hook ignores the old tip a pusher claims, which is the one git then checks (`Push.ClaimDecides`,
  `Push.StaleClaimLosesHistory`).
- A key two members share counts for the first listed of them (`GateLaws.SharedKeyOfRevoked`).
- Parent facts bounded at the old tips make the second-root rule refuse the merge of a branch off an older commit
  (`RuleLedger.SecondRootBoundedIff`, `RuleLedger.MergeBelowIsRefused`).
- The ownership check is never decisive (`GateLaws.OwnershipNeverDecides`), nor is the descent check of a first enrollment
  (`GateTables.BootstrapRefusesIff`).
- A natural-key refname is bound by its final segment only (`GateBinding.ReplayBindsIff`).
- A carriage return at the end of a signature line is lost (`Signature.SignatureRecoveredIff`).
- Capture accepts a range that is empty (`start == end + 1`); the context fallback then answers one line, possibly outside
  the file (`Context.AcceptedLengthIff`).

## Model

| member | source | states |
|---|---|---|
| Graph.ReachesARoot | crates/kernel/ents-gate/src/object.rs:136-151 | Every commit of a finite acyclic graph whose ancestry is complete reaches a parentless commit, so an all-roots walk over it is never empty. |
| Graph.CompleteReachStable | crates/kernel/ents-gate/src/object.rs:153-177 | An object store that grows adds nothing below a commit whose ancestry was already complete. |
| CommitCache.CachedIsComplete | crates/kernel/ents-query/src/eval.rs:567-621 | A commit in the generation cache has its whole ancestry in the store. |
| CommitCache.GenerationFalls | crates/kernel/ents-query/src/eval.rs:567-621 | Along every parent edge of a cached commit the parent is cached too, with a strictly smaller generation. |
| CommitCache.ExpandedOnce | crates/kernel/ents-query/src/eval.rs:580-612 | An expanded commit met again on top of the stack has had every parent cached meanwhile, so duplicate stack entries cannot make the walk expand it twice. |
| CommitCache.WaitsAfterPush | crates/kernel/ents-query/src/eval.rs:596-610 | An expanded, uncached commit always has its uncached parents above it on the stack, also after more parents are pushed. |
| CommitCache.SearchMisses | crates/kernel/ents-query/src/eval.rs:683-713 | Pruning at the generation floor loses nothing: a search that expanded everything at or above the floor without meeting the target proves it unreachable from every tip. |
| PaintDown.TopIsFinal | crates/kernel/ents-query/src/eval.rs:719-802 | The queued commit of greatest generation already carries its final old-side paint: nothing still queued can reach it. |
| PaintDown.PushKeeps | crates/kernel/ents-query/src/eval.rs:735-771 | Painting a commit keeps the walk state: no popped commit is repainted, and the saturating counter equals the number of queued commits painted NEW only. |
| PaintDown.AheadIsDifference | crates/kernel/ents-query/src/eval.rs:719-802 | Once no NEW-only commit is queued, the list built so far is exactly reach(new) minus reach(old), so stopping early loses nothing. |
| Eval.Evaluator.CommitInfoOf | crates/kernel/ents-query/src/eval.rs:567-621 | Terminates on every acyclic graph; Ok exactly when the whole ancestry is readable; on Ok and Err alike the cache stays parent-closed, each generation one more than the greatest parent generation. |
| Eval.Evaluator.Reachable | crates/kernel/ents-query/src/eval.rs:668-681 | Ok exactly when every tip is complete, and then exactly the commits reachable from the tips. |
| Eval.Evaluator.ReachesTarget | crates/kernel/ents-query/src/eval.rs:683-713 | The floor-pruned best-first search: Ok exactly when the target is a tip, there are no tips, or everything it may walk is readable; and then the answer is plain reachability. |
| Eval.Evaluator.AheadOf | crates/kernel/ents-query/src/eval.rs:719-802 | The paint-down walk: without duplicates, exactly reach(new) minus reach(old), and Ok exactly when all tips are complete or there are no new ones. |
| Eval.Evaluator.IterRefs | crates/kernel/ents-query/src/eval.rs:271-296 | The refs under a prefix as one side of a transition sees them, the moved ref overridden. |
| Eval.Evaluator.Resolve | crates/kernel/ents-query/src/eval.rs:250-268 | A full refname resolves as the transition side says, whichever side the store holds. |
| Eval.Evaluator.TipsOfTerm | crates/kernel/ents-query/src/eval.rs:313-336 | The tips of one revision term: a raw id, the first existing lookup candidate of a short name, or every matching ref outside `refs/meta/`. |
| Eval.Evaluator.ResultsIndex | crates/kernel/ents-query/src/eval.rs:349-375 | Exactly the short oids of the result refs whose recorded status counts; Ok exactly when every status that must be read is readable. |
| Eval.Evaluator.ResultStatus | crates/kernel/ents-query/src/eval.rs:377-392 | The recorded status behind a result tip, read through the status cache. |
| Eval.Evaluator.MetaTips | crates/kernel/ents-query/src/eval.rs:397-408 | Exactly the tips of the meta-refs the glob selects. |
| Eval.Evaluator.Universe | crates/kernel/ents-query/src/eval.rs:457-466 | Exactly the commits reachable from some ref. |
| Eval.Evaluator.EvalSide | crates/kernel/ents-query/src/eval.rs:414-450 | Full evaluation returns exactly the denoted set, for every query tree, and is Ok exactly when everything it must read is readable; an error names an object that is missing or no commit, or a status that is not there. |
| Eval.Evaluator.ContainsSide | crates/kernel/ents-query/src/eval.rs:472-499 | Membership of one commit, for every query tree; never wrong when Ok, and Ok whenever full evaluation is and the commit is complete. |
| Eval.Evaluator.CollectCandidates | crates/kernel/ents-query/src/eval.rs:507-548 | The transition frontier, except that a moved results ref contributes one commit its short oid names, when there are several; a readable step never errs. |
| Eval.Evaluator.ResolveShort | crates/kernel/ents-query/src/eval.rs:554-561 | The commit reachable after the step that a short oid names. |
| Eval.Evaluator.EntrySet | crates/kernel/ents-query/src/eval.rs:181-200 | The incremental form: nothing on a ref outside the footprint, else the candidates that enter; every returned commit enters, in an exact step every reachable entrant is returned, and a readable step never errs. |
| Eval.Evaluator.WorkSet | crates/kernel/ents-query/src/eval.rs:212-220 | The step's new obligations: its entry set without the commits that have a result; Ok on every readable step. |
| Eval.Evaluator.OutstandingSet | crates/kernel/ents-query/src/eval.rs:227-230 | Exactly the denoted commits with no recorded result, Ok exactly when the trigger is evaluable. |
| Eval.Evaluator.SubtractResults | crates/kernel/ents-query/src/eval.rs:232-243 | Removes exactly the commits some result ref of the effect records. |
| Denotation.MemberIsDenoted | crates/kernel/ents-query/src/eval.rs:414-499 | On commits reachable from refs, testing one commit and enumerating the set agree for every query tree. |
| Denotation.IndexDecidesResults | crates/kernel/ents-query/src/eval.rs:806-809 | Prefix matching against the index decides exactly whether a result is recorded. |
| Denotation.StatusSelects | crates/kernel/ents-query/src/eval.rs:349-375 | `results(e, status)` selects a commit if and only if some ref `refs/meta/results/e/short` whose short oid begins its id has a tip recording exactly that status. |
| Denotation.AnyIsUnion | crates/kernel/ents-query/src/ast.rs:38-44 | Where every results ref of the effect is readable, `any` is the union of `pass`, `fail` and `error`. |
| Incremental.OffFrontierStable | crates/kernel/ents-query/src/eval.rs:503-548 | A reachable commit off the frontier does not enter where no term uncovers a lookup candidate that could bring it in, and does not leave where none hides one that kept it. |
| Incremental.FrontierInFootprint | crates/kernel/ents-query/src/ast.rs:145-166 | The static footprint covers the frontier: a step on a ref outside it can move no candidate. |
| Incremental.EntrantsAreCandidates | crates/kernel/ents-query/src/eval.rs:181-200 | Every reachable commit in the set after the step and not before is a candidate, and the footprint check lets the step through. |
| Incremental.FrontierReadable | crates/kernel/ents-query/src/eval.rs:507-548 | In a readable step every candidate can be tested without an error. |
| Incremental.EntrySetIsExact | crates/kernel/ents-query/src/eval.rs:181-200 | In an exact step every set the incremental form may return holds exactly the reachable entrants. |
| Incremental.SomeWorkSet | crates/kernel/ents-query/src/eval.rs:181-220 | Where the moved ref's two tips are all there, the step has an entry set and a work set, so what is said of all of them is said of some. |
| Obligations.ExactWorkSet | crates/kernel/ents-query/src/eval.rs:212-220 | In an exact step a reachable commit is in the work set exactly when it enters and has no result. |
| Obligations.NoObligationLost | crates/kernel/ents-query/src/eval.rs:202-243 | Over any run of exact, readable one-ref steps over a growing object store that keep result refs, a reachable commit owed at the end was owed at the start or is in the work set the evaluator returned for some step, given that held commits are reachable. |
| Obligations.StepKeepsObligationIff | crates/kernel/ents-query/src/eval.rs:202-243 | An obligation a step leaves owed was owed before or is in its work set if and only if the commit was denoted before, or is new to the set, on the frontier and in the footprint: it is lost in two ways only, held before while unreachable, or entering where the incremental form does not look. |
| Limits.NameExactIff | crates/kernel/ents-query/src/eval.rs:181-200 | For a short-name query every entrant is a candidate if and only if the step uncovers no later lookup candidate whose tip the deleted tip did not already reach. |
| Limits.DeletedTagUncoversBranch | crates/kernel/ents-query/src/rev.rs:41-60 | A concrete step in which deleting a tag that hid a branch of the same name lets a reachable commit in that no set the incremental form may return holds. |
| Limits.ResultsFootprintIff | crates/kernel/ents-query/src/ast.rs:151-166 | The footprint sees every reachable entrant of a `results` atom, in every store, if and only if the atom's namespace pattern is a valid ref pattern. |
| Limits.UnfollowedEffectParses | crates/kernel/ents-query/src/parse.rs:184-217 | Such an atom parses: an effect name holding a vertical bar does, and its namespace is refused as a pattern. |
| Limits.AmbiguousShortIff | crates/kernel/ents-query/src/eval.rs:536-561 | On a step that moves a results ref, every set the incremental form may return holds all reachable entrants if and only if the moved short oid names at most one reachable commit, or nothing reachable enters. |
| Limits.AmbiguousShortDropsOne | crates/kernel/ents-query/src/eval.rs:554-561 | A concrete store: two reachable commits sharing their first twelve digits both enter on one result, and no set the incremental form may return holds both. |
| Limits.ParsedIsTracked | crates/kernel/ents-query/src/parse.rs:184-217 | A parsed query is fully tracked by its footprint if and only if every effect name in it can stand in a ref pattern. |
| Limits.GroundedObligations | crates/kernel/ents-query/src/eval.rs:202-243 | For triggers without raw ids and without bare `results` atoms the law needs no assumption on held commits: exact, readable steps that keep result refs lose nothing. |
| Limits.EarlyResultIsMissed | crates/kernel/ents-query/src/eval.rs:202-243 | A concrete step that loses an obligation: a result recorded for a commit before any ref reaches it, which no work set of the step lists. |
| Batches.BatchSchedulesIff | crates/kernel/ents-receive/src/receive.rs:195-215 | A transaction of several exact movements schedules a reachable commit it leaves owed if and only if some one movement, undone by itself, would take the commit out again. |
| Batches.JointMoveIsMissed | crates/kernel/ents-receive/src/receive.rs:208-214 | A concrete transaction that creates two branches at one commit: the commit is owed afterwards and neither movement's work set lists it. |
| Dependencies.ResultsDependencies | crates/kernel/ents-query/src/ast.rs:186-206 | The effects named by `results` atoms, each once, in the order their first atoms stand in the query. |
| Dependencies.OnlyDownstreamReacts | crates/kernel/ents-query/src/ast.rs:168-206 | For every query the parser accepts, a new result of an effect that is not listed changes no membership: being downstream is decided by the text. |
| Dependencies.ParsedOverlooksIff | crates/kernel/ents-query/src/parse.rs:217-236 | A query the parser accepts looks at an effect's results refs if and only if the effect is listed. |
| Pattern.GlobMatch | crates/kernel/ents-query/src/pattern.rs:110-138 | The two-pointer scan with one backtrack point decides exactly the inductive meaning of `*`. |
| Pattern.MayMatchExact | crates/kernel/ents-query/src/pattern.rs:143-160 | The prefix test holds if and only if some text with that prefix matches. |
| Query.ParseStatus | crates/kernel/ents-query/src/ast.rs:47-56 | Parses exactly the printed words, each to the filter that prints it. |
| RevText.RevTextMeans | crates/kernel/ents-query/src/rev.rs:73-107 | For every list of tokens `t`, `^t` and `a..b` over valid terms: the text they spell includes and excludes exactly their terms, in order, and is refused only when nothing is included. |
| RevText.RevTextIs | crates/kernel/ents-query/src/rev.rs:73-107 | Every accepted revision text is such a list, token by token. |
| RevText.RevTextHolds | crates/kernel/ents-query/src/rev.rs:73-107 | A revision text holds for exactly the commits that some token brings in (`t`, or `b` of `a..b`) and none keeps out (`^t`, or `a` of `a..b`). |
| RevText.RangeParses | crates/kernel/ents-query/src/rev.rs:87-94 | `a..b` includes `b` and excludes `a`, and is `b ^a` in all but its text. |
| RevText.RangeHolds | crates/kernel/ents-query/src/rev.rs:87-94 | `a..b` holds for exactly the commits `b` reaches and `a` does not. |
| RevText.DotBesideRangeIsRefused | crates/kernel/ents-query/src/rev.rs:83-92 | Whenever `a` ends or `b` begins with a dot, `a..b` is refused. |
| RevText.WordsPart | crates/kernel/ents-query/src/rev.rs:74-80 | Two words with one character between them are two tokens exactly when it is white space of Unicode, and one token otherwise. |
| Meaning.PatternIff | crates/kernel/ents-query/src/pattern.rs:35-60 | A ref pattern is accepted if and only if it is nonempty, holds no blank, control or grammar character, no doubled dot or slash, and no slash at either end. |
| Meaning.TermIff | crates/kernel/ents-query/src/rev.rs:147-184 | Which term a text is: an object id exactly when it is forty hex digits, a glob exactly below `refs/` and not below `refs/meta`, a name exactly when neither it nor a lookup candidate lies there. |
| Meaning.RawDigits | crates/kernel/ents-query/src/rev.rs:154-157 | A raw object id is read digit by digit in lower case. |
| Meaning.NameReaches | crates/kernel/ents-query/src/rev.rs:41-52 | A full name is that ref alone; a short name is the first that exists of `refs/n`, the tag, the branch and the remote. |
| Meaning.GlobReaches | crates/kernel/ents-query/src/eval.rs:313-336 | A glob reaches through every ref it matches under `refs/` and outside `refs/meta/`; a raw id through itself. |
| Meaning.RevAtom | crates/kernel/ents-query/src/parse.rs:104-134 | `rev(text)` is the revision expression of the text between its parentheses. |
| Meaning.ResultsAtom | crates/kernel/ents-query/src/ast.rs:38-60 | The words `pass`, `fail`, `error` and `any` in a `results` atom stand for the three statuses and for all. |
| Meaning.MetaAtom | crates/kernel/ents-query/src/parse.rs:104-134 | `meta(glob)` is the meta atom of any accepted glob. |
| Meaning.MetaAtomIff | crates/kernel/ents-query/src/parse.rs:217-236 | A meta glob is accepted if and only if it is a pattern below `refs/meta/` that matches no refname under `refs/meta/results/` or `refs/meta/index/`. |
| Meaning.MetaSelectsTips | crates/kernel/ents-query/src/eval.rs:397-408 | A meta atom holds for exactly the tips of refs below `refs/meta/` that its glob matches. |
| Meaning.OperatorTexts | crates/kernel/ents-query/src/parse.rs:64-82 | Between any two printed queries `|` denotes the union, `&` the intersection and `-` the difference. |
| Meaning.GroupsLeft | crates/kernel/ents-query/src/parse.rs:64-102 | Operators in a row group to the left whichever they are; parentheses group otherwise. |
| Meaning.BareText | crates/kernel/ents-query/src/parse.rs:23-47 | A text without blanks, parentheses, bars, ampersands and commas is accepted exactly when it is a revision expression, and then means that. |
| Meaning.GrammarText | crates/kernel/ents-query/src/parse.rs:23-47 | A text that holds a blank, a parenthesis, a bar, an ampersand or a comma is a query or nothing. |
| Meaning.TermErrs | crates/kernel/ents-query/src/rev.rs:147-184 | A term naming `refs/meta` is refused as such, exactly then; every other text that is no term, for the token it stands in. |
| Meaning.RevErrs | crates/kernel/ents-query/src/rev.rs:73-101 | A revision text is refused as empty exactly when it is blank, for its first bad token, or because every token only keeps out. |
| Meaning.ResultsErrs | crates/kernel/ents-query/src/parse.rs:184-208 | The arguments of `results` are refused for the missing comma, the reserved `self`, an effect that is no segment or an unknown status, each exactly when nothing before it is wrong. |
| Meaning.MetaErrs | crates/kernel/ents-query/src/parse.rs:219-236 | A meta glob is refused exactly as no pattern, as outside `refs/meta/`, or for the first effect-written namespace that some text it matches lies in. |
| Meaning.TrailingIs | crates/kernel/ents-query/src/parse.rs:23-47 | After any whole query a blank is skipped, and a text that is no operator is reported as trailing, from its first character. |
| Meaning.AtomErrs | crates/kernel/ents-query/src/parse.rs:104-155 | A name of letters, digits and underscores that is no atom is reported by name; an atom without its closing parenthesis, or without the opening one, by the place. |
| Parse.Parser.TakeBalanced | crates/kernel/ents-query/src/parse.rs:136-155 | Returns the text up to the parenthesis that closes the one just opened, or the position-carrying error. |
| Parse.Parser.ParseAtom | crates/kernel/ents-query/src/parse.rs:104-134 | Agrees with the grammar function at every position, value, end position and error. |
| Parse.Parser.ParseTerm | crates/kernel/ents-query/src/parse.rs:84-102 | Agrees with the grammar function at every position; terminates on every input. |
| Parse.Parser.ParseQuery | crates/kernel/ents-query/src/parse.rs:64-82 | One precedence level, left-associative: agrees with the grammar function at every position. |
| Parse.ParseInput | crates/kernel/ents-query/src/parse.rs:23-47 | The whole parser, the bare-glob fallback included. |
| RoundTrip.ClosingIsFirstZero | crates/kernel/ents-query/src/parse.rs:136-155 | The closing parenthesis found is the first position where the depth returns to zero. |
| RoundTrip.ParserIsCanonical | crates/kernel/ents-query/src/parse.rs:23-155 | Whatever the text, a returned tree is canonical: atoms re-parse to themselves, arguments are balanced. |
| RoundTrip.CanonicalTextParses | crates/kernel/ents-query/src/ast.rs:208-227 | The printed text of every canonical tree parses back to that tree. |
| RoundTrip.PrintParseRoundTrip | crates/kernel/ents-query/src/ast.rs:208-235 | For every accepted text, parsing the printed form of the result yields the same tree. |
| RoundTrip.CanonicalTextIsInjective | crates/kernel/ents-query/src/ast.rs:208-227 | Different canonical trees print differently. |
| Signature.SplitSigned | crates/kernel/ents-gate/src/signature.rs:22-69 | The byte scan computes the specified split. |
| Signature.SealCommit | crates/kernel/ents-effect/src/results.rs:101-131 | For every message, signer and list of nonempty one-line headers without a signature of their own, the sealed bytes split back into exactly the payload that was signed, and the signature line by line. |
| Signature.SplitUndoesSeal | crates/kernel/ents-effect/src/results.rs:101-124 | Splitting a sealed commit returns exactly the payload handed to the signer, and the signature line by line. |
| Signature.SealText | crates/kernel/ents-effect/src/results.rs:101-124 | The sealed bytes are the headers, a `gpgsig` line whose further lines are pushed in by one blank, an empty line and the message. |
| Signature.SplitUndoesSign | crates/kernel/ents-gate/src/signature.rs:22-69 | Wherever a folded signature stands among the headers, whatever the headers and the message around it, splitting leaves exactly the commit without it and the signature line by line. |
| Signature.SignatureRecoveredIff | crates/kernel/ents-gate/src/signature.rs:56-68 | The signature itself comes back, with one newline after it, if and only if none of its lines ends in a carriage return. |
| Signature.UnsignedSplitsToNone | crates/kernel/ents-gate/src/signature.rs:22-51 | A signature-looking line in the message is never taken for a header. |
| Namespace.ClassifyTable | crates/kernel/ents-model/src/namespace.rs:432-461 | Each namespace by its literal refnames: a singleton is one refname, every other namespace its bare name and all names below it, and outside `refs/meta/` there is none. |
| Namespace.OwnerUnder | crates/kernel/ents-model/src/namespace.rs:256-310 | Some owner exactly when the prefix, a slash-free owner and a slash lead the refname, and then that owner. |
| Namespace.FinalSegment | crates/kernel/ents-gate/src/verify.rs:468-476 | What follows the last slash, or the whole name. |
| GateObjects.AllRoots | crates/kernel/ents-gate/src/object.rs:136-151 | Ok exactly when nothing reachable is missing or corrupt, and then exactly the reachable parentless commits, each once. |
| GateObjects.DescendsFrom | crates/kernel/ents-gate/src/object.rs:156-177 | True exactly when the ancestor is reachable; an unreadable object only ends its own path. |
| GateObjects.WalkableGrows | crates/kernel/ents-gate/src/object.rs:136-151 | What a walk got through stays walkable, with the same roots, as the object store grows. |
| Gate.Members | crates/kernel/ents-gate/src/policy.rs:28-44 | Exactly the refs under `refs/meta/member/`, each with its tip. |
| Gate.FindSigner | crates/kernel/ents-gate/src/verify.rs:194-201 | The first listed member whose key in force verifies the signature, everyone before readable and not verifying it; no one only if no key verifies; an error only at the first unreadable member before a match. |
| GateLaws.AdmitsIff | crates/kernel/ents-gate/src/verify.rs:111-277 | With members enrolled, a gated update is admitted if and only if the first listed member whose key signed the tip is active, may write the ref and signed content naming it, and the tip descends from the current one; always with the current tip as the swap condition. |
| GateLaws.AdmitsEntitledIff | crates/kernel/ents-gate/src/verify.rs:194-277 | The same over the member refs alone: where every member ref is readable and no two members' keys verify the tip, admitted if and only if it advances the ref and some active member whose key signed it is entitled to it. |
| GateLaws.SharedKeyOfRevoked | crates/kernel/ents-gate/src/verify.rs:194-229 | A key two members share counts for the first listed: if that one is revoked the tip is refused, whoever else holds the key. |
| GateLaws.BootstrapIff | crates/kernel/ents-gate/src/verify.rs:378-442 | With no member enrolled, if and only if the update is a first enrollment signed by the key it enrolls and named by its own id, and advances the ref. |
| GateLaws.OwnershipNeverDecides | crates/kernel/ents-gate/src/verify.rs:783-845 | Given authorization and binding, the ownership check always passes: its genesis-signer branch is never decisive. |
| GateLaws.AdmittedAdvances | crates/kernel/ents-gate/src/verify.rs:155-276 | Every admitted gated update is a commit descending from the current tip; deletion never passes. |
| GateLaws.AdmittedIsRooted | crates/kernel/ents-gate/src/verify.rs:511-543 | An admitted tip of an issue or comment, in an inbox or not, has exactly one root in its whole history, the commit the refname's final segment names. |
| GateLaws.SharedHistoryIsOneEntity | crates/kernel/ents-gate/src/verify.rs:511-543 | Two such tips whose histories meet in a commit with complete ancestry name the same genesis. |
| GateLaws.SelfAttestedStaysHome | crates/kernel/ents-gate/src/verify.rs:296-361 | A self-attested signer is authorized only inside its own inbox or self-run segment. |
| GateLaws.OwnSegmentsAreApart | crates/kernel/ents-model/src/namespace.rs:432-461 | Those segments hold no member, config, effect, issue or comment ref. |
| GateTables.AuthorizedIff | crates/kernel/ents-gate/src/verify.rs:296-361 | Under `refs/meta/self/` and `refs/meta/inbox/` a member may write exactly its own segment, admins included; every other meta-ref is exactly for admins. |
| GateTables.NamedIsBoundIff | crates/kernel/ents-gate/src/verify.rs:608-613 | A member ref is bound exactly when the `id` in the signed tree is its last segment, an effect or toolchain ref exactly when the `name` is. |
| GateTables.OthersAreBound | crates/kernel/ents-gate/src/verify.rs:604-607 | Config, account, pins, redactions and unknown namespaces are bound by nothing. |
| GateTables.EntityIsBoundIff | crates/kernel/ents-gate/src/verify.rs:511-543 | A ref under `refs/meta/issues` or `refs/meta/comments` is bound exactly when its last segment is the id of the one root of the whole history of the tip. |
| GateTables.GenesisIs | crates/kernel/ents-gate/src/verify.rs:516-522 | Which commit a last segment names: none unless it is forty hex digits, and then the one with those digits in lower case. |
| GateTables.ReviewIsBoundIff | crates/kernel/ents-gate/src/verify.rs:615-645 | A review is bound exactly when its `target` field is the twenty bytes its refname spells and its signer the member there. |
| GateTables.ResultIsBoundIff | crates/kernel/ents-gate/src/verify.rs:646-692 | A canonical result is bound exactly when its `effect` is the one in the refname, the short oid there begins its `target`, and a parentless one holds nothing but a result. |
| GateTables.MirrorIsBoundIff | crates/kernel/ents-gate/src/verify.rs:646-692 | A self-run mirror is bound in the same way, exactly for the member in whose segment it stands. |
| GateTables.ClaimIsBoundIff | crates/kernel/ents-gate/src/verify.rs:705-746 | A claim is bound exactly when the tip is the commit its refname names, has a parent, and its tree holds nothing but a claim whose `signer` signed it. |
| GateTables.InboxRefReads | crates/kernel/ents-gate/src/verify.rs:751-769 | An inbox ref read back: its owner, and the canonical ref below it. |
| GateTables.EpochIs | crates/kernel/ents-gate/src/config.rs:53-91 | The epoch in force is the one the tip of `refs/meta/config` records; without that ref there is none. |
| GateTables.PassesUnjudged | crates/kernel/ents-gate/src/verify.rs:122-160 | Outside `refs/meta/` every update passes as a code ref, and before an epoch every update that records none as pre-epoch. |
| GateTables.TipReads | crates/kernel/ents-gate/src/verify.rs:165-171 | A missing tip or a corrupt commit is an error that names it; any other object that is no commit is refused for the signature. |
| GateTables.RefusesIff | crates/kernel/ents-gate/src/verify.rs:150-277 | Which requirement a refusal names, and when: a deletion is no fast-forward; a foreign or revoked signer, or one without the right, is a signature failure; content that names another ref a binding failure; lost history the rest. |
| GateTables.BootstrapRefusesIff | crates/kernel/ents-gate/src/verify.rs:378-442 | With no member enrolled: an enrollment signed by its own key under another name is a binding failure, every other refusal a signature failure, and lost history never is one, since no member ref can exist yet. |
| GateTables.VerifyErrorIs | crates/kernel/ents-gate/src/object.rs:25-134 | Whatever is reported instead of a verdict is so: the named object is missing, or no commit, or a commit whose tree does not hold the entity read from it. |
| GateBinding.ReplayBindsIff | crates/kernel/ents-gate/src/verify.rs:592-769 | A tip bound to one refname is bound to another, in an inbox or not, if and only if every inbox layer of that one is the signer's and the two stand for names sharing their namespace's key: final segment, genesis id, or review target and author. |
| GateBinding.ReviewNamesOneRef | crates/kernel/ents-gate/src/verify.rs:615-645 | A review tip is bound to one refname only. |
| GateBinding.ResultNamesOneTarget | crates/kernel/ents-gate/src/verify.rs:646-692 | Result refs one tip can be bound to name the same effect and prefixes of the same target. |
| GateBinding.StandsKeepsFinalSegment | crates/kernel/ents-gate/src/verify.rs:751-769 | What an inbox ref stands for, through any number of layers, keeps its final segment. |
| GateRuns.JudgedOk | crates/kernel/ents-receive/src/receive.rs:156-181 | A judged edit of a meta-ref never deletes and descends from the tip its writer read before asking for the verdict. |
| GateRuns.StepAdvances | crates/kernel/ents-gate/src/verify.rs:256-276 | Every step of every writer keeps every meta-ref and only moves it to a descendant. |
| GateRuns.RunAdvances | crates/kernel/ents-gate/src/verify.rs:111-163 | Along every interleaving with the epoch in force no meta-ref disappears and every later tip descends from every earlier one. |
| GateSafety.RunKeepsRoots | crates/kernel/ents-gate/src/verify.rs:511-543 | Along every such run each issue or comment tip placed through the gate, in an inbox or not, keeps its one named root. |
| GateSafety.EntitiesNeverShareHistory | crates/kernel/ents-gate/src/object.rs:136-151 | Two issues or comments placed by a run whose histories meet name the same genesis, in inboxes or not. |
| GateSafety.SelfAttestedRunsAreConfined | crates/kernel/ents-gate/src/verify.rs:296-361 | In a run whose writes to meta-refs self-attested members signed, whatever others had judged and left unwritten, every such write lies in the own segment of the member who signed it; members, config, effects, issues and comments stay put and the epoch stays in force. |
| GateSafety.NobodyEscalates | crates/kernel/ents-gate/src/verify.rs:194-233 | Where everyone enrolled is self-attested, every run is so confined, with no assumption on its writes. |
| GateSafety.AllRevokedIsFinal | crates/kernel/ents-gate/src/verify.rs:215-229 | With the epoch in force and every member revoked, no run moves a meta-ref again, and the bootstrap window stays shut. |
| GateEpoch.UndecidedConfigSlipsThroughIff | crates/kernel/ents-gate/src/verify.rs:129-144 | Before any epoch, a config that later records one is waved through if and only if its commit or tree was absent at the verdict. |
| GateEpoch.EpochOpensUnderAdmin | crates/kernel/ents-gate/src/verify.rs:129-144 | When configs are all there at their verdicts, the first state under an epoch is reached by one write an active admin-registered member signed, descending from the tip its verdict was about, and from the tip it replaces, the writer's own read, when the tip the verdict was about descends from that. |
| GateEpoch.ReadDecidesHistoryIff | crates/kernel/ents-receive/src/receive.rs:156-181 | Before the epoch, a config edit descends from the tip it replaces in every run that lets it be written if and only if it descends from the tip its writer read, or the writer read none. |
| GateEpoch.StaleReadLosesHistory | crates/kernel/ents-receive/src/receive.rs:156-181 | A concrete run from an idle repository, before the epoch: the ref moves between the writer's own read and the verdict's and back again, and the first epoch replaces a commit it does not descend from. |
| Push.PreReceive | crates/cli/git-ents/src/hook.rs:161-187 | The push passes if and only if it is certified and every verdict admits; otherwise every refusal is reported, in order. |
| Push.PushAdvances | crates/cli/git-ents/src/hook.rs:161-187 | Whatever happens between the hook and git's own update, a passed push whose claimed old tips are the tips the hook judged only advances meta-refs. |
| Push.ClaimDecides | crates/cli/git-ents/src/hook.rs:128-143 | In general the claimed old tip decides, which the hook does not read: a passed one-line push keeps history whatever is written before git applies it if and only if the new tip descends from the claimed one, for every claim that is the current tip or one the gate admits there. |
| Push.StaleClaimLosesHistory | crates/cli/git-ents/src/hook.rs:128-143 | A concrete run, in force throughout: the hook judges a push, another writer moves the ref, and git applies a line that claims the other writer's tip and does not descend from it. |
| GateRules.Ancestors | crates/kernel/ents-gate-rules/src/lib.rs:153-156 | The two ancestry rules run to their fixpoint derive exactly the paths of one edge or more. |
| GateRules.IntroducedRows | crates/kernel/ents-gate-rules/src/lib.rs:162-175 | Exactly the commits at or below a new tip not at or below the old one. |
| GateRules.Gate | crates/kernel/ents-gate-rules/src/lib.rs:260-301 | The violations returned are exactly the rows the seven denial rules derive. |
| RuleLedger.IntroducedIsDifference | crates/kernel/ents-gate-rules/src/lib.rs:162-175 | When the facts also hold the edges below the old tip, introduced means reachable from the new tip and not from the old. |
| RuleLedger.NewIsIntroduced | crates/kernel/ents-gate-rules/src/lib.rs:130-175 | Whether or not the facts go below the old tip, everything the update brings is introduced, and nothing the new tip does not reach. |
| RuleLedger.BoundedIntroducesIff | crates/kernel/ents-gate-rules/src/lib.rs:130-175 | When the facts stop at the old tip, introduced means brought by the update, or the parent of such a commit below the old tip. |
| RuleLedger.FastForwardIff | crates/kernel/ents-gate-rules/src/lib.rs:188-192 | The fast-forward rule fires exactly when the new tip does not descend from the old, whether or not the facts go below the old tip. |
| RuleLedger.GenesisIff | crates/kernel/ents-gate-rules/src/lib.rs:194-197 | A creation passes exactly when its tip is its own one root. |
| RuleLedger.SecondRootIff | crates/kernel/ents-gate-rules/src/lib.rs:199-205 | On a fast-forward from a tip with one root, with the facts below the old tip at hand, refusing introduced parentless commits is the same as the whole-history rule. |
| RuleLedger.CleanIff | crates/kernel/ents-gate-rules/src/lib.rs:154-231 | All rules together: with the facts below the old tips at hand, a transaction is clean if and only if each created ref starts at its one root, each advanced ref descends from its old tip and gains no root, and every new commit is signed by a member, under effects by an admin, and anchored at objects that exist. |
| RuleLedger.SecondRootBoundedIff | crates/kernel/ents-gate-rules/src/lib.rs:130-205 | With facts that stop at the old tip the rule is silent if and only if the whole-history rule holds and no new commit has a parent below the old tip. |
| RuleLedger.MergeBelowIsRefused | crates/kernel/ents-gate-rules/src/lib.rs:199-205 | A concrete merge of a branch off an older commit: one root before and after, and refused by facts that stop at the old tip. |
| RuleLedger.RefsKeepTheirRoot | crates/kernel/ents-gate-rules/src/lib.rs:153-211 | Along any run of clean transactions each ref's whole history has one root, the commit it was created at. |
| RuleLedger.HistoryIsSigned | crates/kernel/ents-gate-rules/src/lib.rs:207-211 | Along any such run every commit in a ref's history was, when it was introduced, signed by a member enrolled then, under effects by an admin, and anchored only at objects that existed. |
| RuleLedger.AllRootsAgrees | crates/kernel/ents-gate/src/object.rs:136-151 | The gate's all-roots walk would find exactly that commit. |
| Lines.SplitUndoesConcat | crates/kernel/ents-anchor/src/anchor.rs:322-338 | Lines as a split leaves them come back from their concatenation. |
| Lines.ConcatUndoesSplit | crates/kernel/ents-anchor/src/anchor.rs:326-338 | Splitting loses no byte, and leaves every line but the last terminated. |
| Anchor.MapRange | crates/kernel/ents-anchor/src/projection.rs:418-454 | For any valid hunk list: None exactly when the range is malformed or a hunk touches it or inserts strictly inside it, so no checked operation fails for another reason; otherwise the same number of lines, inside the new file, each the one the diff carries over. |
| Anchor.AnswerIff | crates/kernel/ents-anchor/src/projection.rs:411-454 | For hunks that each change something, a range in the file is touched if and only if no answer follows the diff: every refusal was forced. |
| Anchor.FollowedLinesAreEqual | crates/kernel/ents-anchor/src/projection.rs:411-417 | The mapped lines equal the anchored lines one by one. |
| Anchor.FollowsIsFunctional | crates/kernel/ents-anchor/src/projection.rs:411-417 | A diff leaves one possible answer. |
| Context.ContextIsWindow | crates/kernel/ents-anchor/src/anchor.rs:322-338 | The captured context splits back into exactly the anchored lines and up to three on either side. |
| Context.FindBest | crates/kernel/ents-anchor/src/projection.rs:273-283 | The first window of greatest score. |
| Context.AcceptedIff | crates/kernel/ents-anchor/src/projection.rs:285-295 | The best window is accepted if and only if no more of its lines disagree with the captured context than agree. |
| Context.ProjectFromContext | crates/kernel/ents-anchor/src/projection.rs:236-313 | Deleted, outdated or relocated exactly as the entry, its kind and the best window's score say. |
| Context.AcceptedLengthIff | crates/kernel/ents-anchor/src/projection.rs:297-312 | An accepted answer has the anchored length if and only if the range is not empty, and then lies inside the target file. |
| Context.EmptyAnchorPointsOutside | crates/kernel/ents-anchor/src/anchor.rs:185-187 | A concrete empty range that capture accepts and whose answer lies outside the file. |
| Context.FuzzyAgreesWithExact | crates/kernel/ents-anchor/src/projection.rs:236-313 | When no hunk touches the captured window and the context occurs once, the fallback gives the exact mapping's answer. |
| Writeback.OtherEffectsRef | crates/kernel/ents-effect/src/run.rs:65-68 | A canonical results ref belongs to one effect. |
| Writeback.MembershipKept | crates/kernel/ents-query/src/eval.rs:472-499 | A write the trigger overlooks changes no membership and leaves the trigger evaluable. |
| Writeback.WriteDischarges | crates/kernel/ents-effect/src/results.rs:78-145 | One applied canonical result discharges its target's obligation and no other of its effect, whatever results the trigger reads, the effect's own included. |
| Writeback.WriteKeepsOthers | crates/kernel/ents-effect/src/results.rs:78-145 | It changes what no effect owes on a commit whose id does not begin with the target's short oid, whatever results that effect's trigger reads. |
| RunLoop.MirrorKeepsObligation | crates/kernel/ents-effect/src/run.rs:252-256 | A write to a ref that is no canonical result of the effect, such as a self-run mirror, discharges none of its obligations. |
| RunLoop.Worker.WriteResult | crates/kernel/ents-effect/src/results.rs:78-145 | The new commit records effect, target and status on the tip the ref had, sealed over its own tree, parents and status; only that ref moves, and it may have moved although an error is returned. |
| RunLoop.Worker.RunOne | crates/kernel/ents-effect/src/run.rs:138-197 | The outcome and the refs afterwards for every cause of failure; nothing is written unless a run produced a status, a write-back error may leave the ref moved, and a ref that moved records the effect, the commit and the very status the execution returned. |
| RunLoop.Worker.Batch | crates/kernel/ents-effect/src/run.rs:249-263 | The commit asked for, or exactly the outstanding set, each once. |
| RunLoop.Worker.RunEffect | crates/kernel/ents-effect/src/run.rs:233-284 | Exactly the commits of the batch up to the first failure are tried, in order, all of them on success, and the error is the last try's. The tip of every ref whose last move was a run records that run's effect, commit and returned status. Any effect owes afterwards what it owed before minus exactly what was run for it and whose canonical result ref moved, the one reported as failed among them if its ref had moved; for an effect whose trigger reads results that moved, this is said of the commits those results do not speak of. |
| RunLoop.BatchResultIsRun | crates/kernel/ents-effect/src/run.rs:180-196 | After one batch a commit it tried, whose ref moved and whose short oid nothing shares, is in `results(effect, status)` if and only if its own execution returned that status. |
| RunLoop.ResultIsLastRun | crates/kernel/ents-effect/src/results.rs:90-145 | After any sequence of tries the same holds of the last run that moved the canonical ref of the commit. |
| RunLoop.TargetIsBoundIff | crates/kernel/ents-effect/src/run.rs:252-256 | The ref a result is written to is one the gate binds its record to: a canonical one for every signer, a mirror exactly for the member in whose segment it stands. |
| RunLoop.Worker.RunAndRetry | crates/kernel/ents-effect/src/run.rs:219-227 | A batch and then a retry, for triggers that read the effect's own results too: a commit is run again exactly when it was owed and its result ref did not move, whether the first batch finished or stopped. |
| RunLoop.Worker.PostReceive | crates/cli/git-ents/src/hook.rs:296-358 | Every obligation run had its result ref absent at that moment; on success each pending obligation was run, is recorded, or is of an undefined effect, and on failure the last try or an unnameable ref says why. Every ref a run moved last records that run's effect, commit and returned status. Every effect's obligations are conserved minus exactly those whose refs moved, a downstream effect's on the commits the moved results it reads do not speak of. |
| RunLoop.ParsedIsCalm | crates/kernel/ents-query/src/parse.rs:217-236 | Every trigger the parser accepts falls under these conservation laws wherever it can be evaluated, whatever results it reads. |
| RunLoop.ParsedUntouched | crates/kernel/ents-query/src/ast.rs:186-206 | For a parsed trigger that names no other effect that ran on the commit, only a shared short oid can touch it. |
| RunLoop.AbsentRefsMoveOnce | crates/cli/git-ents/src/hook.rs:320-330 | In a drain that runs only while the ref is absent, no result ref moves twice and none that was there moves at all. |
| RunLoop.AddressedIsAcyclic | crates/kernel/ents-effect/src/results.rs:91-131 | Ids that hash their parents' ids admit no cycle, so every graph the loop builds can be evaluated. |
| Checkout.SafeIffStaysInside | crates/kernel/ents-effect/src/materialize.rs:33-40 | A name is accepted if and only if it holds no backslash or NUL and, resolved against any directory, names one new component directly below it. |
| Checkout.CheckNames | crates/kernel/ents-effect/src/materialize.rs:79-105 | Refuses exactly the entry lists with a non-UTF-8 name, a name that does not stay inside its directory, or a repeated one. |
| Checkout.Partition | crates/kernel/ents-effect/src/materialize.rs:107-111 | The same entries, links last. |
| Checkout.Checkout | crates/kernel/ents-effect/src/materialize.rs:42-156 | Into an empty directory, every write made at the path its name resolves to: on success what stands at every path below it is exactly what the tree denotes there, and everything else is as it was; nothing outside changes wherever it stops; every error names an object or entry of some tree that is at fault; a bad root is refused before any write; it succeeds on a clean tree unless an operation of the disk failed, and on no other. |
| Checkout.WriteEntry | crates/kernel/ents-effect/src/materialize.rs:113-154 | One entry written through real directories only; the state grows by exactly what the entry denotes. |

## Left out

- Obligations.NoObligationLost: asks that held commits be reachable and that the steps be exact, because the law fails
  exactly otherwise (`Obligations.StepKeepsObligationIff`).
- Eval.Evaluator.EntrySet: complete only for steps in which no short name changes over in a way that lets a commit in, and
  that move an unambiguous short oid, because outside them the code does miss entrants (`Limits.NameExactIff`,
  `Limits.AmbiguousShortIff`).
- GateEpoch.EpochOpensUnderAdmin: descent from the replaced tip is stated where the tip the verdict was about descends
  from the writer's own read; otherwise it can fail (`GateEpoch.StaleReadLosesHistory`), and
  `GateEpoch.ReadDecidesHistoryIff` is the exact condition.
- Checkout.Checkout: the destination is empty, as the run loop leaves it; overwriting existing files is not modelled.
- RunLoop.Worker.RunEffect: one worker at a time; racing writers are the gate's state machine.  The order of the batch is
  left open, and outcomes collected before a failure are not returned, as in the source.  A commit that a moved result
  speaks of can enter or leave a trigger reading that result, so a downstream effect's obligation on it is not conserved
  (`Obligations.ExactWorkSet` is what is then scheduled).
- Gate.Verify: a field whose blob is missing reads as its tree says, because entry blobs are attributes of the tree.
- Refusal texts, their details and the inbox hint.
- Advisory mode, redaction ingest and the event queue of `receive`.
- `project_exact` and `project_worktree` around `map_range`: tree diffing, rename tracking and reading the working tree.
- The checking of push certificates and the parsing of the hook's standard input.
- SSH signature cryptography, key parsing and PEM.
- The order `gate` sorts its messages in, and their wording.
- Executors, toolchains, environment variables, process handling and quarantine directories.
- The command line, the web and language-server front ends, rendering and presentation.
