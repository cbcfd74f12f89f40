# Block verifier request model

A Dafny model of the block verifier's request type in Zebra's consensus crate.
A `Request` wraps one block and tags it with the caller's intent: `Commit`
(the standard path), `CheckProposal` (evaluate a candidate block without
committing it; only in builds with the `getblocktemplate-rpcs` feature) or
`TinyCash` (a reduced-validation path that still commits). The accessors
`Block`, `IsProposal` and `IsTinyCash` are modelled as pure functions over a
datatype `Request<B>`, with the block type `B` kept opaque.

The build feature is modelled as a boolean `enabled` and a predicate
`Request.Valid(enabled)` that excludes `CheckProposal` when the feature is off.
The doc comments on the three variants state a validation policy. `Request.Plan` writes that policy out as a
`ValidationPlan`: whether proof of work is checked, whether semantic
validation is full, that the state performs contextual validation, and
whether the block is committed. A second encoding, `Submission`
(a block plus an `Intent` tag), has no counterpart in the source: it is the
enum of `zebra-consensus/src/block/request.rs` (lines 9-23) read as a block
paired with a tag. It is connected to `Request` by conversions both ways, proved
inverse by `SubmissionRoundTrip`.

All members live in module `BlockRequest` in `request.dfy`.

## Model

| member | source | states |
|---|---|---|
| BlockRequest.Request.Valid | zebra-consensus/src/block/request.rs:13-17 | every request exists in a build with the feature; in a build without it, exactly `Commit` and `TinyCash` requests exist (its meaning is proved by ProposalNeedsFeature and ProposalCapability) |
| BlockRequest.Request.Block | zebra-consensus/src/block/request.rs:26-35 | the result is the block the request was built around, under whichever of the three intents |
| BlockRequest.Request.IsProposal | zebra-consensus/src/block/request.rs:37-46 | true if and only if the request is `CheckProposal`; false for `Commit` and for `TinyCash` (the wildcard arm) |
| BlockRequest.Request.IsTinyCash | zebra-consensus/src/block/request.rs:48-54 | true if and only if the request is `TinyCash`; false for the other two |
| BlockRequest.Request.Plan | zebra-consensus/src/block/request.rs:10-22 | proof of work is checked exactly when neither accessor holds; semantic checks are full exactly when the request is not tinycash; contextual validation is always asked of the state; the block is committed exactly when it is not a proposal |
| BlockRequest.Request.ToSubmission | zebra-consensus/src/block/request.rs:9-23 | maps a request to a block plus one intent tag, keeping the block and agreeing with both accessors |
| BlockRequest.FromSubmission | zebra-consensus/src/block/request.rs:9-23 | maps a block and intent tag to the request with that block, whose accessors report that intent |
| BlockRequest.SubmissionInBuild | zebra-consensus/src/block/request.rs:13-17 | a submission converts to a request of the build if and only if the feature is on or its intent is not a proposal check |
| BlockRequest.BlockOfEachIntent | zebra-consensus/src/block/request.rs:27-35 | `Block` returns exactly the wrapped block for each of the three constructors |
| BlockRequest.ExactlyOneIntent | zebra-consensus/src/block/request.rs:38-54 | `IsProposal` and `IsTinyCash` are never both true, and both are false exactly for `Commit` |
| BlockRequest.ProposalNeedsFeature | zebra-consensus/src/block/request.rs:13-17 | in a build without the feature no request is a proposal; with it, `IsProposal` holds exactly for `CheckProposal` |
| BlockRequest.ProposalCapability | zebra-consensus/src/block/request.rs:42-44 | a request that is a proposal exists in a build if and only if the feature is enabled |
| BlockRequest.EqualityByBlockAndIntent | zebra-consensus/src/block/request.rs:7-23 | two requests are equal if and only if their blocks and both accessors agree (derived equality) |
| BlockRequest.DistinctIntentsDistinctRequests | zebra-consensus/src/block/request.rs:7-23 | one block wrapped under two different intents gives two different requests |
| BlockRequest.ProofOfWorkOnlyForCommit | zebra-consensus/src/block/request.rs:10-20 | the plan checks proof of work if and only if the request is `Commit` |
| BlockRequest.CommitAndPartialValidation | zebra-consensus/src/block/request.rs:10-22 | `Commit` and `TinyCash` commit and `CheckProposal` does not; only `TinyCash` validates partially; every intent gets contextual validation |
| BlockRequest.PlanIdentifiesIntent | zebra-consensus/src/block/request.rs:9-23 | two requests get the same plan if and only if they have the same intent, whatever their blocks |
| BlockRequest.SubmissionRoundTrip | zebra-consensus/src/block/request.rs:9-23 | converting a request to a submission and back gives the request again, and the same holds for a submission |

## Left out

- Reference counting of the block (`Arc` and `Arc::clone`): the block is an immutable value of an opaque type, so sharing and copying cannot be told apart.
- Block contents: the block type belongs to another crate and stays an opaque type parameter.
- The semantic validator, the state service (contextual validation and commit) and the pipeline that calls them: their code is not part of this model. Only the policy that the variant doc comments state is modelled (`Request.Plan`): the proof-of-work, full-or-partial, contextual-validation and commit decisions.
- Request.Plan: records which steps run, not their order (semantic validation, then contextual validation, then commit), because the plan is a set of decisions and the steps that follow it are not part of this model.
- Compile-time configuration: the two builds are one datatype plus a `Valid(enabled)` predicate, not two separate programs.
- `Debug` formatting is left out; `Clone` of an immutable value is the value itself.
- Concurrency: nothing in the request type is concurrent.
