/** What a caller asks of the block verifier, and the policy it selects.

    A request wraps one block (kept opaque: the type parameter `B`) and tags it
    with the caller's intent. The intent selects the validation policy the
    block verifier applies: whether proof of work is checked, whether semantic
    validation is full or partial, and whether the block is committed to the
    chain state once contextual validation succeeds.

    The `CheckProposal` intent exists only in builds with proposal checking
    (the `getblocktemplate-rpcs` build feature). The model keeps one datatype
    with all three intents and a well-formedness predicate `Valid(enabled)`
    that rules `CheckProposal` out of a build where the feature is off.
 */
module BlockRequest {

  /** One block, tagged with the intent its submitter has for it. */
  datatype Request<B> =
    | /** Semantic validation, then contextual validation and commit. */
      Commit(B)
    | /** Semantic validation without proof of work, then contextual
          validation; never committed. Present only with the feature on. */
      CheckProposal(B)
    | /** Partial semantic validation without proof of work, then contextual
          validation and commit. */
      TinyCash(B)
  {
    /** A request that can exist in a build where the proposal-checking
        feature is `enabled` (or not): without the feature the
        `CheckProposal` variant is absent from the type. */
    function Valid(enabled: bool): (ok: bool)
      ensures enabled ==> ok
      ensures !enabled ==> (ok <==> Commit? || TinyCash?)
    {
      enabled || !CheckProposal?
    }

    /** The block the request was constructed with, whatever its intent. */
    function Block(): (b: B)
      ensures this == Commit(b) || this == CheckProposal(b) || this == TinyCash(b)
    {
      match this
      case Commit(block) => block
      case CheckProposal(block) => block
      case TinyCash(block) => block
    }

    /** Whether the request is a proposal check. `TinyCash` reaches the
        wildcard arm, in both builds. */
    function IsProposal(): (r: bool)
      ensures r <==> CheckProposal?
    {
      match this
      case Commit(_) => false
      case CheckProposal(_) => true
      case _ => false
    }

    /** Whether the request asks for the reduced (tinycash) validation. */
    function IsTinyCash(): (r: bool)
      ensures r <==> TinyCash?
    {
      match this
      case TinyCash(_) => true
      case _ => false
    }

    /** The validation policy the request's intent selects. Every intent is
        matched explicitly, so a new intent cannot fall through to a default.
        The plan is stated through the two accessors, which is how a
        consumer of the request observes its intent. */
    function Plan(): (p: ValidationPlan)
      ensures p.checkProofOfWork <==> !IsProposal() && !IsTinyCash()
      ensures p.fullSemanticChecks <==> !IsTinyCash()
      ensures p.contextualValidation
      ensures p.commitToState <==> !IsProposal()
    {
      match this
      case Commit(_) => ValidationPlan(true, true, true, true)
      case CheckProposal(_) => ValidationPlan(false, true, true, false)
      case TinyCash(_) => ValidationPlan(false, false, true, true)
    }

    /** The request as a block paired with a separate intent tag. */
    function ToSubmission(): (s: Submission<B>)
      ensures s.block == Block()
      ensures s.intent == CheckProposalIntent <==> IsProposal()
      ensures s.intent == TinyCashIntent <==> IsTinyCash()
    {
      match this
      case Commit(block) => Submission(block, CommitIntent)
      case CheckProposal(block) => Submission(block, CheckProposalIntent)
      case TinyCash(block) => Submission(block, TinyCashIntent)
    }
  }

  /** The validation policy a request's intent fixes: semantic validation
      (with or without proof of work, full or partial), then contextual
      validation by the state, then, for some intents, the commit. */
  datatype ValidationPlan = ValidationPlan(
    checkProofOfWork: bool,
    fullSemanticChecks: bool,
    contextualValidation: bool,
    commitToState: bool)

  /** The caller's intent, as a tag separate from the block; one tag per
      variant of `Request`. */
  datatype Intent = CommitIntent | CheckProposalIntent | TinyCashIntent

  /** A block paired with exactly one intent. */
  datatype Submission<B> = Submission(block: B, intent: Intent)

  /** The request a submission stands for. */
  function FromSubmission<B>(s: Submission<B>): (r: Request<B>)
    ensures r.Block() == s.block
    ensures r.IsProposal() <==> s.intent == CheckProposalIntent
    ensures r.IsTinyCash() <==> s.intent == TinyCashIntent
  {
    match s.intent
    case CommitIntent => Commit(s.block)
    case CheckProposalIntent => CheckProposal(s.block)
    case TinyCashIntent => TinyCash(s.block)
  }

  /** A submission stands for a request of a build exactly when the build has
      the feature or the submission's intent is not a proposal check. */
  lemma SubmissionInBuild<B>(s: Submission<B>, enabled: bool)
    ensures FromSubmission(s).Valid(enabled) <==> enabled || s.intent != CheckProposalIntent
  {
  }

  /** `Block` gives back exactly the block each constructor wrapped: a
      corollary of `Block`'s own contract, kept to state it per constructor. */
  lemma BlockOfEachIntent<B>(b: B)
    ensures Commit(b).Block() == b
    ensures CheckProposal(b).Block() == b
    ensures TinyCash(b).Block() == b
  {
  }

  /** The two accessors are never both true, and both are false exactly for
      `Commit`: every request has exactly one identifiable intent. */
  lemma ExactlyOneIntent<B>(r: Request<B>)
    ensures !(r.IsProposal() && r.IsTinyCash())
    ensures r.Commit? <==> !r.IsProposal() && !r.IsTinyCash()
  {
  }

  /** Without the proposal-checking feature no request of the build is a
      proposal; with it, `IsProposal` holds exactly for `CheckProposal`.
      The first clause is a corollary of the second, kept as the plain
      statement for the build without the feature. */
  lemma ProposalNeedsFeature<B>(r: Request<B>, enabled: bool)
    requires r.Valid(enabled)
    ensures !enabled ==> !r.IsProposal()
    ensures r.IsProposal() <==> enabled && r.CheckProposal?
  {
  }

  /** A proposal request can be built from a block exactly when the feature
      is enabled: the capability is present in one build and absent in the
      other, rather than present but always answered `false`. */
  lemma ProposalCapability<B>(b: B, enabled: bool)
    ensures (exists r: Request<B> :: r.Valid(enabled) && r.IsProposal()) <==> enabled
  {
    if enabled {
      assert CheckProposal(b).Valid(enabled) && CheckProposal(b).IsProposal();
    }
  }

  /** Requests are equal exactly when their blocks and their intents agree,
      so one block under two intents gives two different requests. */
  lemma EqualityByBlockAndIntent<B>(r1: Request<B>, r2: Request<B>)
    ensures r1 == r2 <==>
              && r1.Block() == r2.Block()
              && r1.IsProposal() == r2.IsProposal()
              && r1.IsTinyCash() == r2.IsTinyCash()
  {
  }

  /** In particular a `Commit` and a `TinyCash` of one block differ. */
  lemma DistinctIntentsDistinctRequests<B>(b: B)
    ensures Commit(b) != TinyCash(b)
    ensures Commit(b) != CheckProposal(b)
    ensures CheckProposal(b) != TinyCash(b)
  {
  }

  /** Proof of work is checked only for `Commit`. */
  lemma ProofOfWorkOnlyForCommit<B>(r: Request<B>)
    ensures r.Plan().checkProofOfWork <==> r.Commit?
  {
  }

  /** `Commit` and `TinyCash` commit the block, `CheckProposal` never does;
      `TinyCash` alone validates only partially; every intent asks the state
      for contextual validation. */
  lemma CommitAndPartialValidation<B>(r: Request<B>)
    ensures r.Plan().commitToState <==> r.Commit? || r.TinyCash?
    ensures !r.Plan().fullSemanticChecks <==> r.TinyCash?
    ensures r.Plan().contextualValidation
  {
  }

  /** Each intent selects a different plan, so the plan alone tells the
      consumers which intent they are serving; and the plan depends on the
      intent only, never on the block. */
  lemma PlanIdentifiesIntent<B>(r1: Request<B>, r2: Request<B>)
    ensures r1.Plan() == r2.Plan() <==>
              r1.IsProposal() == r2.IsProposal() && r1.IsTinyCash() == r2.IsTinyCash()
  {
  }

  /** A request and its submission view are two encodings of the same value. */
  lemma SubmissionRoundTrip<B>(r: Request<B>, s: Submission<B>)
    ensures FromSubmission(r.ToSubmission()) == r
    ensures FromSubmission(s).ToSubmission() == s
  {
  }
}
