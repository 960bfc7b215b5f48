/**
 * Cherry-pick detection: the body matcher that decides whether a PR refers
 * to a source PR as a cherry-pick, the decoding of raw PR records, and the
 * per-PR and per-batch detection loops.
 *
 * Detection sees the client through two functions: the related-PR search
 * for a source PR number and the detail fetch of a candidate, each of
 * which may fail.
 */
module CherryPickDetector {
  import opened PyStr
  import opened Models
  import opened GitHubClient

  /** Words that mark a PR as a cherry-pick, matched in the lower-cased body. */
  const Keywords: seq<string> := ["cherry-pick", "cherry pick", "cherrypick", "backport", "pick pr"]

  /** The detection label of every Picked result. */
  const BodyReference: string := "PR body reference"

  /** The six ways a body may refer to PR number n. */
  function RefPatterns(n: int): (ps: seq<string>)
    ensures |ps| == 6
    ensures forall i :: 0 <= i < 6 ==> IsLowerCase(ps[i])
  {
    var d := IntToString(n);
    LowerCaseJoin("#", d);
    LowerCaseJoin("pull/", d);
    LowerCaseJoin("pr: #", d);
    LowerCaseJoin("pr: ", d);
    LowerCaseJoin("pr:#", d);
    LowerCaseJoin("pr:", d);
    ["#" + d, "pull/" + d, "pr: #" + d, "pr: " + d, "pr:#" + d, "pr:" + d]
  }

  lemma LowerCaseJoin(a: string, b: string)
    requires IsLowerCase(a) && IsLowerCase(b)
    ensures IsLowerCase(a + b)
  {
    assert forall i :: 0 <= i < |a + b| ==> (a + b)[i] == if i < |a| then a[i] else b[i - |a|];
  }

  predicate HasKeyword(lower: string) {
    exists kw :: kw in Keywords && Contains(lower, kw)
  }

  /** Some reference form occurs in the body as written or lower-cased, with no word boundary. */
  predicate HasReference(body: string, lower: string, n: int) {
    exists p :: p in RefPatterns(n) && (Contains(body, p) || Contains(lower, p))
  }

  predicate HasPrPrefix(lower: string) {
    Contains(lower, "pr:") || Contains(lower, "pr :")
  }

  /**
   * `_is_cherry_pick_reference`: an empty body never matches; otherwise a
   * reference to n must occur, together with a "pr:" prefix or a keyword.
   */
  function IsCherryPickReference(body: string, n: int): (b: bool)
    ensures body == [] ==> !b
    ensures b ==> exists p :: p in RefPatterns(n) && (Contains(body, p) || Contains(ToLower(body), p))
    ensures b ==> HasPrPrefix(ToLower(body)) || exists kw :: kw in Keywords && Contains(ToLower(body), kw)
  {
    if body == [] then false
    else
      var lower := ToLower(body);
      var hasKeyword := HasKeyword(lower);
      var hasReference := HasReference(body, lower, n);
      var hasPrPrefix := HasPrPrefix(lower);
      if hasPrPrefix && hasReference then true
      else hasKeyword && hasReference
  }

  /** The four plain reference substrings of a lower-cased body. */
  predicate HasPlainReference(lower: string, d: string) {
    Contains(lower, "#" + d) || Contains(lower, "pull/" + d) || Contains(lower, "pr: " + d) || Contains(lower, "pr:" + d)
  }

  /** A hit of any one reference form is a hit of a plain reference in the lower-cased body. */
  lemma ReferenceHitIsPlain(body: string, n: int, p: string)
    requires p in RefPatterns(n) && (Contains(body, p) || Contains(ToLower(body), p))
    ensures HasPlainReference(ToLower(body), IntToString(n))
  {
    var lower := ToLower(body);
    var d := IntToString(n);
    var ps := RefPatterns(n);
    var i :| 0 <= i < 6 && ps[i] == p;
    assert Contains(lower, p) by {
      if Contains(body, p) {
        ContainsLowered(body, p);
      }
    }
    if i == 2 {
      assert "pr: " + ("#" + d) + "" == p;
      ContainsInfix("pr: ", "#" + d, "");
      ContainsTrans(lower, p, "#" + d);
    } else if i == 4 {
      assert "pr:" + ("#" + d) + "" == p;
      ContainsInfix("pr:", "#" + d, "");
      ContainsTrans(lower, p, "#" + d);
    }
  }

  /**
   * The six reference forms collapse to four plain substrings of the
   * lower-cased body: "pr: #N" and "pr:#N" contain "#N", and every form is
   * lower-case, so a hit in the body is a hit in its lower-cased form.
   */
  lemma ReferenceForms(body: string, n: int)
    ensures HasReference(body, ToLower(body), n) <==> HasPlainReference(ToLower(body), IntToString(n))
  {
    var lower := ToLower(body);
    var d := IntToString(n);
    var ps := RefPatterns(n);
    if HasReference(body, lower, n) {
      var p :| p in ps && (Contains(body, p) || Contains(lower, p));
      ReferenceHitIsPlain(body, n, p);
    }
    if HasPlainReference(lower, d) {
      var i := if Contains(lower, "#" + d) then 0 else if Contains(lower, "pull/" + d) then 1
        else if Contains(lower, "pr: " + d) then 3 else 5;
      assert Contains(lower, ps[i]);
    }
  }

  /**
   * The matcher in four substrings: a non-empty body matches exactly when its
   * lower-cased form holds "#N", "pull/N", "pr: N" or "pr:N", and also "pr:",
   * "pr :" or a keyword.
   */
  lemma MatcherCharacterization(body: string, n: int)
    ensures var lower := ToLower(body);
      var d := IntToString(n);
      IsCherryPickReference(body, n) <==>
        && body != []
        && (HasPrPrefix(lower) || HasKeyword(lower))
        && HasPlainReference(lower, d)
  {
    ReferenceForms(body, n);
  }

  /** A "pr:N" reference needs no keyword. */
  lemma PrColonSuffices(body: string, n: int)
    requires Contains(ToLower(body), "pr:" + IntToString(n))
    ensures IsCherryPickReference(body, n)
  {
    var lower := ToLower(body);
    var d := IntToString(n);
    ContainsInfix("", "pr:", d);
    assert "" + "pr:" + d == "pr:" + d;
    ContainsTrans(lower, "pr:" + d, "pr:");
    assert RefPatterns(n)[5] == "pr:" + d;
    assert |body| > 0;
  }

  /** Text in which the first character of p never appears does not contain p. */
  lemma AbsentHead(s: string, p: string)
    requires |p| > 0 && forall i :: 0 <= i < |s| ==> s[i] != p[0]
    ensures !Contains(s, p)
  {
    ContainsAt(s, p);
    assert forall i :: 0 <= i <= |s| - |p| ==> s[i..i + |p|][0] == s[i];
  }

  /** A string with no upper-case letter is its own lower-case form. */
  lemma LowerOfLowerCase(s: string)
    requires IsLowerCase(s)
    ensures ToLower(s) == s
  {
  }

  /** Text without the letters 'c', 'b' and 'p' holds no keyword and no "pr:" prefix. */
  lemma NoMarkerLetters(lower: string)
    requires forall i :: 0 <= i < |lower| ==> lower[i] != 'c' && lower[i] != 'b' && lower[i] != 'p'
    ensures !HasKeyword(lower) && !HasPrPrefix(lower)
  {
    forall kw | kw in Keywords
      ensures !Contains(lower, kw)
    {
      AbsentHead(lower, kw);
    }
    AbsentHead(lower, "pr:");
    AbsentHead(lower, "pr :");
  }

  /** Without a keyword and without "pr:", a bare "#N" is not a cherry-pick. */
  lemma BareHashIsNotEnough(body: string)
    requires body == "unrelated text #123"
    ensures !IsCherryPickReference(body, 123)
  {
    assert ToLower(body) == body by {
      LowerOfLowerCase(body);
    }
    assert forall i :: 0 <= i < |body| ==> body[i] != 'c' && body[i] != 'b' && body[i] != 'p';
    NoMarkerLetters(body);
    MatcherCharacterization(body, 123);
  }

  /** A match needs only a plain reference and a keyword (or "pr:") in the lower-cased body. */
  lemma MatchFromHits(body: string, n: int, marker: string, reference: string)
    requires marker in Keywords || marker == "pr:"
    requires reference in ["#" + IntToString(n), "pull/" + IntToString(n)]
    requires Contains(ToLower(body), marker) && Contains(ToLower(body), reference)
    ensures IsCherryPickReference(body, n)
  {
    var lower := ToLower(body);
    ContainsAt(lower, reference);
    assert |body| == |lower| > 0;
    MatcherCharacterization(body, n);
  }

  /** The reference forms have no word boundary: "#N" followed by more digits still refers to N. */
  lemma PrefixCollision(body: string, n: int, kw: string, more: string)
    requires kw in Keywords && Contains(ToLower(body), kw)
    requires Contains(ToLower(body), "#" + IntToString(n) + more)
    ensures IsCherryPickReference(body, n)
  {
    var d := IntToString(n);
    assert Contains(ToLower(body), "#" + d) by {
      ContainsInfix("", "#" + d, more);
      assert "" + ("#" + d) + more == "#" + d + more;
      ContainsTrans(ToLower(body), "#" + d + more, "#" + d);
    }
    MatchFromHits(body, n, kw, "#" + d);
  }

  /** A "pr:" line carrying a pull-request URL is a cherry-pick with no keyword at all. */
  lemma PrUrlLine(body: string, n: int, gap: string)
    requires Contains(ToLower(body), "pr:" + gap + "pull/" + IntToString(n))
    ensures IsCherryPickReference(body, n)
  {
    var lower := ToLower(body);
    var ref := "pull/" + IntToString(n);
    var whole := "pr:" + gap + ref;
    assert whole == "pr:" + gap + "pull/" + IntToString(n);
    assert Contains(lower, "pr:") by {
      ContainsInfix("", "pr:", gap + ref);
      assert "" + "pr:" + (gap + ref) == whole;
      ContainsTrans(lower, whole, "pr:");
    }
    assert Contains(lower, ref) by {
      ContainsInfix("pr:" + gap, ref, "");
      assert "pr:" + gap + ref + "" == whole;
      ContainsTrans(lower, whole, ref);
    }
    MatchFromHits(body, n, "pr:", ref);
  }

  /** A keyword line together with a "pr: #N" line, whatever their letter case. */
  lemma KeywordLine(body: string, n: int, kw: string)
    requires kw in Keywords && Contains(ToLower(body), kw)
    requires Contains(ToLower(body), "pr: #" + IntToString(n))
    ensures IsCherryPickReference(body, n)
  {
    var d := IntToString(n);
    assert Contains(ToLower(body), "#" + d) by {
      ContainsInfix("pr: ", "#" + d, "");
      assert "pr: " + ("#" + d) + "" == "pr: #" + d;
      ContainsTrans(ToLower(body), "pr: #" + d, "#" + d);
    }
    MatchFromHits(body, n, kw, "#" + d);
  }

  // ---------------------------------------------------------------------------
  // Decoding raw PR records

  /** Python truthiness of an optional string: present and non-empty. */
  predicate Truthy(o: Option<string>) {
    o.Some? && o.value != ""
  }

  /** `pr_data.get("body", "") or ""`. */
  function BodyText(pr: PullRecord): string {
    if pr.body.Some? then pr.body.value else ""
  }

  /**
   * `_parse_pr_state`: Merged whenever either merge timestamp is set;
   * otherwise Closed for a state of "closed" in any letter case, and Open
   * for "open" and for anything else.
   */
  function ParsePrState(pr: PullRecord): (s: PRState)
    ensures s == Merged <==> Truthy(pr.nestedMergedAt) || Truthy(pr.mergedAt)
    ensures s == Closed <==> !(Truthy(pr.nestedMergedAt) || Truthy(pr.mergedAt)) && ToLower(pr.state) == "closed"
    ensures s == Open <==> !(Truthy(pr.nestedMergedAt) || Truthy(pr.mergedAt)) && ToLower(pr.state) != "closed"
  {
    if Truthy(pr.nestedMergedAt) || Truthy(pr.mergedAt) then Merged
    else
      var state := ToLower(pr.state);
      if state == "open" then Open
      else if state == "closed" then Closed
      else Open
  }

  /**
   * `_parse_pr_info`: the record's identity fields, its decoded state, the
   * nested merge timestamp in preference to the top-level one, and the
   * base branch: the override when it is non-empty, else the record's base
   * ref, else "unknown".
   */
  function ParsePrInfo(pr: PullRecord, baseOverride: Option<string>): (p: PRInfo)
    ensures p.number == pr.number && p.title == pr.title && p.url == pr.htmlUrl && p.author == pr.login
    ensures p.state == ParsePrState(pr)
    ensures p.mergedAt.Some? <==> p.state == Merged
    ensures p.mergedAt.Some? ==> p.mergedAt == if Truthy(pr.nestedMergedAt) then pr.nestedMergedAt else pr.mergedAt
    ensures p.createdAt == if Truthy(pr.createdAt) then pr.createdAt else None
    ensures Truthy(baseOverride) ==> p.baseBranch == baseOverride.value
    ensures !Truthy(baseOverride) ==> p.baseBranch == if pr.baseRef.Some? then pr.baseRef.value else "unknown"
  {
    var createdAt := if Truthy(pr.createdAt) then pr.createdAt else None;
    var mergedAt :=
      if Truthy(pr.nestedMergedAt) then pr.nestedMergedAt
      else if Truthy(pr.mergedAt) then pr.mergedAt
      else None;
    var base :=
      if Truthy(baseOverride) then baseOverride.value
      else if pr.baseRef.Some? then pr.baseRef.value
      else "unknown";
    PRInfo(pr.number, pr.title, pr.htmlUrl, pr.login, base, ParsePrState(pr), createdAt, mergedAt)
  }

  /** State strings are compared case-insensitively; unknown states read as Open. */
  lemma ParsePrStateExamples(pr: PullRecord)
    requires !Truthy(pr.nestedMergedAt) && !Truthy(pr.mergedAt)
    ensures ParsePrState(pr.(state := "CLOSED")) == Closed
    ensures ParsePrState(pr.(state := "Open")) == Open
    ensures ParsePrState(pr.(state := "")) == Open
  {
    assert ToLower("CLOSED") == "closed";
  }

  /** A merge timestamp wins over any state string. */
  lemma MergedWinsOverState(pr: PullRecord, at: string)
    requires at != ""
    ensures ParsePrState(pr.(mergedAt := Some(at), state := "closed")) == Merged
    ensures ParsePrState(pr.(nestedMergedAt := Some(at), state := "open")) == Merged
  {
  }

  // ---------------------------------------------------------------------------
  // Detection

  /** The client as detection sees it: related-PR search by source number, and detail fetch by PR number. */
  datatype RepoApi = RepoApi(
    search: int -> Result<seq<PullRecord>, ClientError>,
    details: int -> Result<PullRecord, ClientError>)

  /**
   * What one search hit contributes to the branch map: nothing when it is
   * the source PR itself, when its body is not a reference, when its detail
   * fetch fails (any error, a rate-limit error included), when the detail
   * has no base ref, or when that base is not requested; otherwise the
   * parsed detail under its base branch.
   */
  function Accept(api: RepoApi, n: int, c: PullRecord, targets: seq<string>): (p: Option<PRInfo>)
    ensures p.Some? <==>
      && c.number != n
      && IsCherryPickReference(BodyText(c), n)
      && api.details(c.number).Ok?
      && api.details(c.number).value.baseRef.Some?
      && api.details(c.number).value.baseRef.value in targets
    ensures p.Some? ==>
      p.value.baseBranch == api.details(c.number).value.baseRef.value
      && p == Some(ParsePrInfo(api.details(c.number).value, api.details(c.number).value.baseRef))
  {
    if c.number == n then None
    else if !IsCherryPickReference(BodyText(c), n) then None
    else match api.details(c.number)
      case Err(_) => None
      case Ok(d) =>
        if d.baseRef.Some? && d.baseRef.value in targets then Some(ParsePrInfo(d, d.baseRef)) else None
  }

  /** Contribution p writes branch b. */
  predicate WritesTo(p: Option<PRInfo>, b: string) {
    p.Some? && p.value.baseBranch == b
  }

  /** Hit c contributes a PR for branch b. */
  predicate Writes(api: RepoApi, n: int, c: PullRecord, targets: seq<string>, b: string) {
    WritesTo(Accept(api, n, c, targets), b)
  }

  /** The contributions of the hits, in search order. */
  function Contributions(api: RepoApi, n: int, hits: seq<PullRecord>, targets: seq<string>): (ps: seq<Option<PRInfo>>)
    ensures |ps| == |hits|
    ensures forall j :: 0 <= j < |hits| ==> ps[j] == Accept(api, n, hits[j], targets)
  {
    seq(|hits|, j requires 0 <= j < |hits| => Accept(api, n, hits[j], targets))
  }

  /** The map after the contributions in order, each overwriting the entry for its base branch. */
  function Overwrite(ps: seq<Option<PRInfo>>): map<string, PRInfo>
  {
    if ps == [] then map[]
    else
      var m := Overwrite(ps[..|ps| - 1]);
      var p := ps[|ps| - 1];
      if p.Some? then m[p.value.baseBranch := p.value] else m
  }

  /** The branch map of `_detect_for_pr`. */
  function BranchMap(api: RepoApi, n: int, hits: seq<PullRecord>, targets: seq<string>): map<string, PRInfo>
  {
    Overwrite(Contributions(api, n, hits, targets))
  }

  /** The map after the first i + 1 contributions. */
  lemma OverwriteStep(ps: seq<Option<PRInfo>>, i: nat)
    requires i < |ps|
    ensures Overwrite(ps[..i + 1]) ==
      if ps[i].Some? then Overwrite(ps[..i])[ps[i].value.baseBranch := ps[i].value] else Overwrite(ps[..i])
  {
    assert ps[..i + 1][..i] == ps[..i];
  }

  /** One more contribution sets the entry of the branch it writes, and leaves every other entry alone. */
  lemma OverwriteSnoc(ps: seq<Option<PRInfo>>, b: string)
    requires ps != []
    ensures var m, before := Overwrite(ps), Overwrite(ps[..|ps| - 1]);
      WritesTo(ps[|ps| - 1], b) ==> b in m && m[b] == ps[|ps| - 1].value
    ensures var m, before := Overwrite(ps), Overwrite(ps[..|ps| - 1]);
      !WritesTo(ps[|ps| - 1], b) ==> (b in m <==> b in before) && (b in before ==> m[b] == before[b])
  {
  }

  /** A branch is in the map exactly when some contribution writes it. */
  lemma {:induction false} OverwriteDomain(ps: seq<Option<PRInfo>>, b: string)
    ensures b in Overwrite(ps) <==> exists j :: 0 <= j < |ps| && WritesTo(ps[j], b)
  {
    if ps != [] {
      var init := ps[..|ps| - 1];
      OverwriteDomain(init, b);
      OverwriteSnoc(ps, b);
      if exists j :: 0 <= j < |ps| && WritesTo(ps[j], b) {
        var j :| 0 <= j < |ps| && WritesTo(ps[j], b);
        if j < |ps| - 1 {
          assert ps[j] == init[j];
        }
      }
      if exists j :: 0 <= j < |init| && WritesTo(init[j], b) {
        var j :| 0 <= j < |init| && WritesTo(init[j], b);
        assert ps[j] == init[j];
      }
    }
  }

  /** Last writer wins: a mapped branch holds what the last contribution writing it wrote. */
  lemma {:induction false} OverwriteLastWriter(ps: seq<Option<PRInfo>>, b: string) returns (j: nat)
    requires b in Overwrite(ps)
    ensures j < |ps| && WritesTo(ps[j], b) && Overwrite(ps)[b] == ps[j].value
    ensures forall l :: j < l < |ps| ==> !WritesTo(ps[l], b)
  {
    var init := ps[..|ps| - 1];
    var last := |ps| - 1;
    OverwriteSnoc(ps, b);
    if WritesTo(ps[last], b) {
      j := last;
    } else {
      j := OverwriteLastWriter(init, b);
      assert ps[j] == init[j];
      assert forall l :: j < l < last ==> ps[l] == init[l];
    }
  }

  /** Every key of the branch map is a requested branch, mapped to a PR based on it. */
  lemma BranchMapKeys(api: RepoApi, n: int, hits: seq<PullRecord>, targets: seq<string>)
    ensures forall b :: b in BranchMap(api, n, hits, targets) ==>
      b in targets && BranchMap(api, n, hits, targets)[b].baseBranch == b
  {
    var ps := Contributions(api, n, hits, targets);
    forall b | b in Overwrite(ps) ensures b in targets && Overwrite(ps)[b].baseBranch == b {
      var j := OverwriteLastWriter(ps, b);
      assert ps[j] == Accept(api, n, hits[j], targets);
    }
  }

  /** A branch is in the map exactly when some hit writes it. */
  lemma BranchMapDomain(api: RepoApi, n: int, hits: seq<PullRecord>, targets: seq<string>, b: string)
    ensures b in BranchMap(api, n, hits, targets) <==> exists j :: 0 <= j < |hits| && Writes(api, n, hits[j], targets, b)
  {
    var ps := Contributions(api, n, hits, targets);
    OverwriteDomain(ps, b);
    if exists j :: 0 <= j < |hits| && Writes(api, n, hits[j], targets, b) {
      var j :| 0 <= j < |hits| && Writes(api, n, hits[j], targets, b);
      assert WritesTo(ps[j], b);
    }
  }

  /** Last writer wins: the entry of a mapped branch is what the last hit writing it wrote. */
  lemma BranchMapLastWriter(api: RepoApi, n: int, hits: seq<PullRecord>, targets: seq<string>, b: string)
    returns (j: nat)
    requires b in BranchMap(api, n, hits, targets)
    ensures j < |hits| && Writes(api, n, hits[j], targets, b)
    ensures BranchMap(api, n, hits, targets)[b] == Accept(api, n, hits[j], targets).value
    ensures forall l :: j < l < |hits| ==> !Writes(api, n, hits[l], targets, b)
  {
    var ps := Contributions(api, n, hits, targets);
    j := OverwriteLastWriter(ps, b);
    forall l | j < l < |hits| ensures !Writes(api, n, hits[l], targets, b) {
      assert ps[l] == Accept(api, n, hits[l], targets);
    }
  }

  /**
   * The result for one requested branch: Picked with the mapped PR and the
   * body-reference label when the branch is in the map, NotPicked with
   * neither otherwise; never Unknown.
   */
  function ResultFor(source: PRInfo, branch: string, m: map<string, PRInfo>): (r: CherryPickResult)
    ensures r.sourcePr == source && r.targetBranch == branch && r.status != Unknown
    ensures r.status == Picked <==> branch in m
    ensures r.status == Picked <==> r.relatedPr.Some?
    ensures r.status == Picked ==> r.relatedPr == Some(m[branch]) && r.detectionMethod == BodyReference
    ensures r.status == NotPicked ==> r.detectionMethod == ""
  {
    if branch in m then CherryPickResult(source, branch, Picked, Some(m[branch]), BodyReference)
    else CherryPickResult(source, branch, NotPicked)
  }

  /** One result per requested branch, in the requested order. */
  function Results(source: PRInfo, targets: seq<string>, m: map<string, PRInfo>): (rs: seq<CherryPickResult>)
    ensures |rs| == |targets|
    ensures forall i :: 0 <= i < |targets| ==> rs[i] == ResultFor(source, targets[i], m)
  {
    seq(|targets|, i requires 0 <= i < |targets| => ResultFor(source, targets[i], m))
  }

  /** The results of one source PR: the search error, or one result per branch against the map built from its hits. */
  function PrResults(api: RepoApi, source: PRInfo, targets: seq<string>): Result<seq<CherryPickResult>, ClientError> {
    match api.search(source.number)
    case Err(e) => Err(e)
    case Ok(hits) => Ok(Results(source, targets, BranchMap(api, source.number, hits, targets)))
  }

  /** `_detect_for_pr`. */
  method DetectForPr(api: RepoApi, source: PRInfo, targets: seq<string>) returns (r: Result<seq<CherryPickResult>, ClientError>)
    ensures r == PrResults(api, source, targets)
    ensures r.Err? <==> api.search(source.number).Err?
    ensures r.Ok? ==> |r.value| == |targets|
    ensures r.Ok? ==> forall i :: 0 <= i < |targets| ==>
      && r.value[i].targetBranch == targets[i] && r.value[i].sourcePr == source && r.value[i].status != Unknown
      && (r.value[i].status == Picked <==> r.value[i].relatedPr.Some?)
  {
    var related := api.search(source.number);
    if related.Err? {
      return Err(related.error);
    }
    var hits := related.value;
    var branchToCp: map<string, PRInfo> := map[];
    ghost var contributions := Contributions(api, source.number, hits, targets);
    for i := 0 to |hits|
      invariant branchToCp == Overwrite(contributions[..i])
    {
      OverwriteStep(contributions, i);
      var prData := hits[i];
      if prData.number == source.number {
        continue;
      }
      var body := BodyText(prData);
      if !IsCherryPickReference(body, source.number) {
        continue;
      }
      var detail := api.details(prData.number);
      if detail.Err? || detail.value.baseRef.None? {
        continue;
      }
      var targetBranch := detail.value.baseRef.value;
      if targetBranch in targets {
        branchToCp := branchToCp[targetBranch := ParsePrInfo(detail.value, Some(targetBranch))];
      }
    }
    assert contributions[..|hits|] == contributions;
    var results: seq<CherryPickResult> := [];
    for i := 0 to |targets|
      invariant |results| == i
      invariant forall j :: 0 <= j < i ==> results[j] == ResultFor(source, targets[j], branchToCp)
    {
      var branch := targets[i];
      if branch in branchToCp {
        results := results + [CherryPickResult(source, branch, Picked, Some(branchToCp[branch]), BodyReference)];
      } else {
        results := results + [CherryPickResult(source, branch, NotPicked)];
      }
    }
    assert results == Results(source, targets, branchToCp);
    r := Ok(results);
  }

  /** The results of a batch: each source PR's results in source order, or the first search error. */
  function CrossResults(api: RepoApi, sources: seq<PRInfo>, targets: seq<string>): Result<seq<CherryPickResult>, ClientError>
  {
    if sources == [] then Ok([])
    else
      match CrossResults(api, sources[..|sources| - 1], targets)
      case Err(e) => Err(e)
      case Ok(prev) =>
        match PrResults(api, sources[|sources| - 1], targets)
        case Err(e) => Err(e)
        case Ok(rs) => Ok(prev + rs)
  }

  lemma CellBelow(i: int, j: int, n: int, m: int)
    requires 0 <= i < n && 0 <= j < m
    ensures 0 <= i * m + j < n * m
  {
    assert i * m + j < i * m + m == (i + 1) * m;
    assert (i + 1) * m <= n * m;
  }

  /** A batch fails exactly when the search of some source PR fails. */
  lemma {:induction false} CrossResultsFails(api: RepoApi, sources: seq<PRInfo>, targets: seq<string>)
    ensures CrossResults(api, sources, targets).Err? <==>
      exists i :: 0 <= i < |sources| && api.search(sources[i].number).Err?
  {
    if sources != [] {
      var init := sources[..|sources| - 1];
      CrossResultsFails(api, init, targets);
      if exists i :: 0 <= i < |init| && api.search(init[i].number).Err? {
        var i :| 0 <= i < |init| && api.search(init[i].number).Err?;
        assert sources[i] == init[i];
      }
      if exists i :: 0 <= i < |sources| && api.search(sources[i].number).Err? {
        var i :| 0 <= i < |sources| && api.search(sources[i].number).Err?;
        if i < |init| {
          assert sources[i] == init[i];
        }
      }
    }
  }

  /** A successful batch has |targets| results per source PR. */
  lemma {:induction false} CrossResultsLength(api: RepoApi, sources: seq<PRInfo>, targets: seq<string>)
    requires CrossResults(api, sources, targets).Ok?
    ensures |CrossResults(api, sources, targets).value| == |sources| * |targets|
  {
    if sources != [] {
      var init := sources[..|sources| - 1];
      CrossResultsLength(api, init, targets);
      assert |sources| * |targets| == (|sources| - 1) * |targets| + |targets|;
    }
  }

  /**
   * A successful batch is the |sources| x |targets| grid, source-major:
   * entry i*|targets|+j is the result of source i for branch j.
   */
  lemma {:induction false} CrossResultsCell(api: RepoApi, sources: seq<PRInfo>, targets: seq<string>, i: nat, j: nat)
    requires CrossResults(api, sources, targets).Ok?
    requires i < |sources| && j < |targets|
    ensures PrResults(api, sources[i], targets).Ok?
    ensures i * |targets| + j < |CrossResults(api, sources, targets).value|
    ensures CrossResults(api, sources, targets).value[i * |targets| + j] == PrResults(api, sources[i], targets).value[j]
  {
    var init := sources[..|sources| - 1];
    var last := |sources| - 1;
    CrossResultsLength(api, init, targets);
    var r := CrossResults(api, sources, targets).value;
    var prev := CrossResults(api, init, targets).value;
    assert r == prev + PrResults(api, sources[last], targets).value;
    if i < last {
      CellBelow(i, j, last, |targets|);
      CrossResultsCell(api, init, targets, i, j);
      assert sources[i] == init[i];
    } else {
      assert i * |targets| == |prev|;
    }
  }

  /** `detect_cherry_picks`; the progress display does not change the results. */
  method DetectCherryPicks(api: RepoApi, sources: seq<PRInfo>, targets: seq<string>, showProgress: bool)
    returns (r: Result<seq<CherryPickResult>, ClientError>)
    ensures r == CrossResults(api, sources, targets)
  {
    var results: seq<CherryPickResult> := [];
    for i := 0 to |sources|
      invariant CrossResults(api, sources[..i], targets) == Ok(results)
    {
      assert sources[..i + 1][..i] == sources[..i];
      var prResults := DetectForPr(api, sources[i], targets);
      if prResults.Err? {
        assert CrossResults(api, sources[..i + 1], targets) == prResults;
        CrossResultsErrSticks(api, sources, targets, i + 1);
        assert sources[..|sources|] == sources;
        return prResults;
      }
      results := results + prResults.value;
    }
    assert sources[..|sources|] == sources;
    r := Ok(results);
  }

  /** Once a prefix of the batch has failed, the whole batch fails with the same error. */
  lemma {:induction false} CrossResultsErrSticks(api: RepoApi, sources: seq<PRInfo>, targets: seq<string>, k: nat)
    requires k <= |sources| && CrossResults(api, sources[..k], targets).Err?
    ensures CrossResults(api, sources, targets) == CrossResults(api, sources[..k], targets)
    decreases |sources| - k
  {
    if k < |sources| {
      assert sources[..k + 1][..k] == sources[..k];
      CrossResultsErrSticks(api, sources, targets, k + 1);
    } else {
      assert sources[..k] == sources;
    }
  }

  /** `get_user_prs`: the author's PRs from the client, each decoded with the requested base branch. */
  method GetUserPrs(client: GitHubClient, repo: string, author: string, base: string, since: Option<string>,
                    includeOpen: bool, fuel: nat)
    returns (r: Result<seq<PRInfo>, ClientError>)
    modifies client
    ensures var o := client.UserPrsRun(old(client.sent), repo, author, base, since, includeOpen, fuel);
      && client.sent == old(client.sent) + |o.trace| && client.sleeps == old(client.sleeps) + o.sleeps
      && (r.Err? <==> o.result.Err?)
      && (r.Err? ==> r.error == o.result.error)
      && (r.Ok? ==>
            |r.value| == |o.result.value|
            && forall i :: 0 <= i < |r.value| ==> r.value[i] == ParsePrInfo(o.result.value[i], Some(base)))
  {
    var listed := client.GetUserPrs(repo, author, base, since, includeOpen, fuel);
    if listed.Err? {
      return Err(listed.error);
    }
    var prs: seq<PRInfo> := [];
    for i := 0 to |listed.value|
      invariant |prs| == i
      invariant forall j :: 0 <= j < i ==> prs[j] == ParsePrInfo(listed.value[j], Some(base))
    {
      prs := prs + [ParsePrInfo(listed.value[i], Some(base))];
    }
    r := Ok(prs);
  }

  /** With a non-empty base branch, every PR the user listing returns is reported on that base. */
  lemma UserPrsOnBase(pr: PullRecord, base: string)
    requires base != ""
    ensures ParsePrInfo(pr, Some(base)).baseBranch == base
  {
  }
}
