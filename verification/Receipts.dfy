/** The receipt a session leaves, and what `integrate` asks of it before it
    looks at the tree. */
module Receipts {
  import opened Outcomes
  import opened Text
  import opened Renumbering

  /** A commit, named by what it holds as Git names it: its tree and its
      parents. */
  datatype Commit = Commit(tree: Tree, parents: seq<Commit>)

  datatype EvidenceCheck = Tests | E2e | SubagentReview

  datatype CheckStatus = Passed | Failed | NotApplicable

  datatype ReceiptCheck = ReceiptCheck(status: CheckStatus, evidence: string)

  /** `commit` is the commit the receipt's text names, when it names one;
      `commitIsSha` whether the text is a commit id at all. */
  datatype Receipt = Receipt(
    runId: string,
    succeeded: bool,
    commitIsSha: bool,
    commit: Option<Commit>,
    tests: ReceiptCheck,
    e2e: ReceiptCheck,
    subagentReview: ReceiptCheck,
    followUpsAreArray: bool)
  {
    function Evidence(check: EvidenceCheck): ReceiptCheck {
      match check
      case Tests => tests
      case E2e => e2e
      case SubagentReview => subagentReview
    }
  }

  datatype ReceiptError =
    | Malformed
    | RunMismatch
    | AgentReported
    | CheckFailed(check: EvidenceCheck)
    | Unexplained(check: EvidenceCheck)
    | NotACommit
    | FollowUpsNotArray

  predicate IsBlankText(s: string) {
    Trim(s) == []
  }

  /** A check the task does not demand: it must not have failed, and must be
      explained. */
  function CheckError(receipt: Receipt, check: EvidenceCheck, required: seq<EvidenceCheck>): Option<ReceiptError> {
    if check in required then None
    else if receipt.Evidence(check).status == Failed then Some(CheckFailed(check))
    else if IsBlankText(receipt.Evidence(check).evidence) then Some(Unexplained(check))
    else None
  }

  function CheckRequiring(receipt: Receipt, runId: string, required: seq<EvidenceCheck>): Option<ReceiptError> {
    if receipt.runId != runId then Some(RunMismatch)
    else if !receipt.succeeded then Some(AgentReported)
    else if CheckError(receipt, Tests, required).Some? then CheckError(receipt, Tests, required)
    else if CheckError(receipt, E2e, required).Some? then CheckError(receipt, E2e, required)
    else if CheckError(receipt, SubagentReview, required).Some? then CheckError(receipt, SubagentReview, required)
    else if !receipt.commitIsSha then Some(NotACommit)
    else if !receipt.followUpsAreArray then Some(FollowUpsNotArray)
    else None
  }

  predicate Backs(receipt: Receipt, check: EvidenceCheck) {
    receipt.Evidence(check).status == Passed && !IsBlankText(receipt.Evidence(check).evidence)
  }

  /** The required checks the receipt does not back. */
  function MissingEvidence(receipt: Receipt, required: seq<EvidenceCheck>): seq<EvidenceCheck> {
    if required == [] then []
    else (if Backs(receipt, required[0]) then [] else [required[0]]) + MissingEvidence(receipt, required[1..])
  }

  /** A check that is explained and did not fail, and passed if demanded. */
  ghost predicate IsFine(check: ReceiptCheck, demanded: bool) {
    Trim(check.evidence) != "" && check.status != Failed && (demanded ==> check.status == Passed)
  }

  /** What a receipt that lands says: it is this run's and reports success,
      every check is explained and none failed, and a demanded one passed. */
  ghost predicate IsSound(receipt: Receipt, runId: string, required: seq<EvidenceCheck>) {
    && receipt.runId == runId && receipt.succeeded && receipt.commitIsSha && receipt.followUpsAreArray
    && IsFine(receipt.tests, Tests in required)
    && IsFine(receipt.e2e, E2e in required)
    && IsFine(receipt.subagentReview, SubagentReview in required)
  }

  lemma {:induction false} NothingMissing(receipt: Receipt, required: seq<EvidenceCheck>)
    ensures MissingEvidence(receipt, required) == [] <==> forall c :: c in required ==> Backs(receipt, c)
  {
    if required != [] {
      NothingMissing(receipt, required[1..]);
      assert forall c :: c in required <==> c == required[0] || c in required[1..];
    }
  }

  /** The two checks of a landing together accept exactly the sound
      receipts. */
  lemma ChecksAcceptSound(receipt: Receipt, runId: string, required: seq<EvidenceCheck>)
    ensures CheckRequiring(receipt, runId, required).None? && MissingEvidence(receipt, required) == [] <==>
      IsSound(receipt, runId, required)
  {
    NothingMissing(receipt, required);
    ChecksAreFine(receipt, required);
    FineByName(receipt, required);
  }

  lemma ChecksAreFine(receipt: Receipt, required: seq<EvidenceCheck>)
    ensures (forall check ::
               CheckError(receipt, check, required).None? && (check in required ==> Backs(receipt, check))) <==>
      forall check :: IsFine(receipt.Evidence(check), check in required)
  {
    forall check
      ensures (CheckError(receipt, check, required).None? && (check in required ==> Backs(receipt, check))) <==>
        IsFine(receipt.Evidence(check), check in required)
    {
    }
  }

  lemma FineByName(receipt: Receipt, required: seq<EvidenceCheck>)
    ensures (forall check :: IsFine(receipt.Evidence(check), check in required)) <==>
      && IsFine(receipt.tests, Tests in required)
      && IsFine(receipt.e2e, E2e in required)
      && IsFine(receipt.subagentReview, SubagentReview in required)
  {
    assert receipt.Evidence(Tests) == receipt.tests && receipt.Evidence(E2e) == receipt.e2e;
    assert receipt.Evidence(SubagentReview) == receipt.subagentReview;
    if forall check :: IsFine(receipt.Evidence(check), check in required) {
      assert IsFine(receipt.Evidence(Tests), Tests in required) && IsFine(receipt.Evidence(E2e), E2e in required);
      assert IsFine(receipt.Evidence(SubagentReview), SubagentReview in required);
    }
  }

  /** Why a receipt is refused is true of it: the first thing wrong, of its run,
      its result, the checks that are not demanded, its commit and its
      follow-ups. */
  lemma RefusedTruly(receipt: Receipt, runId: string, required: seq<EvidenceCheck>, e: ReceiptError)
    requires CheckRequiring(receipt, runId, required) == Some(e)
    ensures match e
      case Malformed => false
      case RunMismatch => receipt.runId != runId
      case AgentReported => receipt.runId == runId && !receipt.succeeded
      case CheckFailed(c) => receipt.succeeded && c !in required && receipt.Evidence(c).status == Failed
      case Unexplained(c) =>
        receipt.succeeded && c !in required && receipt.Evidence(c).status != Failed &&
        Trim(receipt.Evidence(c).evidence) == ""
      case NotACommit => receipt.succeeded && !receipt.commitIsSha
      case FollowUpsNotArray => receipt.succeeded && receipt.commitIsSha && !receipt.followUpsAreArray
  {
  }

  /** And exactly when nothing is wrong it is not refused. */
  lemma RefusedExactly(receipt: Receipt, runId: string, required: seq<EvidenceCheck>)
    ensures CheckRequiring(receipt, runId, required) == None <==>
      && receipt.runId == runId && receipt.succeeded && receipt.commitIsSha && receipt.followUpsAreArray
      && forall c: EvidenceCheck :: c !in required ==>
           receipt.Evidence(c).status != Failed && Trim(receipt.Evidence(c).evidence) != ""
  {
    forall c: EvidenceCheck
      ensures CheckError(receipt, c, required).None? <==>
        c in required || (receipt.Evidence(c).status != Failed && Trim(receipt.Evidence(c).evidence) != "")
    {
    }
  }
}
