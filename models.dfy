/**
 * The value types shared by the client, the branch selector and the
 * detector: pull-request lifecycle state, cherry-pick status, the parsed
 * pull request and one detection result.
 */
module Models {

  datatype Option<+T> = None | Some(value: T)

  datatype Result<+T, +E> = Ok(value: T) | Err(error: E)

  /** Lifecycle state of a pull request: exactly three variants. */
  datatype PRState = Open | Merged | Closed

  /** Outcome of one (source PR, target branch) check: exactly three variants. */
  datatype CherryPickStatus = Picked | NotPicked | Unknown

  /**
   * Timestamps are kept as the API's text; parsing them into dates is not
   * part of this model.
   */
  type Timestamp = string

  /**
   * A pull request as the tool reports it. The state defaults to Merged and
   * both timestamps default to absent; the base branch has no default and is
   * listed before the defaulted fields so that it can be given positionally.
   */
  datatype PRInfo = PRInfo(
    number: int,
    title: string,
    url: string,
    author: string,
    baseBranch: string,
    state: PRState := Merged,
    createdAt: Option<Timestamp> := None,
    mergedAt: Option<Timestamp> := None)

  /**
   * One detection result. The related PR defaults to absent and the method
   * label to "". The type itself does not tie relatedPr to status: a Picked
   * result without a related PR can be built; the detector is what pairs them.
   */
  datatype CherryPickResult = CherryPickResult(
    sourcePr: PRInfo,
    targetBranch: string,
    status: CherryPickStatus,
    relatedPr: Option<PRInfo> := None,
    detectionMethod: string := "")

  /** A PR built from only its required fields takes the documented defaults. */
  function NewPRInfo(number: int, title: string, url: string, author: string, baseBranch: string): (p: PRInfo)
    ensures p.number == number && p.baseBranch == baseBranch
    ensures p.state == Merged && p.createdAt == None && p.mergedAt == None
  {
    PRInfo(number, title, url, author, baseBranch)
  }

  /** A result built from only its required fields takes the documented defaults. */
  function NewResult(source: PRInfo, target: string, status: CherryPickStatus): (r: CherryPickResult)
    ensures r.sourcePr == source && r.targetBranch == target && r.status == status
    ensures r.relatedPr == None && r.detectionMethod == ""
  {
    CherryPickResult(source, target, status)
  }

  /** The type admits a Picked result with no related PR. */
  lemma PickedWithoutRelatedIsConstructible()
    ensures exists r: CherryPickResult :: r.status == Picked && r.relatedPr == None
  {
    var source := NewPRInfo(123, "Source PR", "https://github.com/owner/repo/pull/123", "testuser", "main");
    var r := CherryPickResult(source, "2.4", Picked, None, "pattern_match");
    assert r.status == Picked && r.relatedPr == None;
  }
}
