/**
  The walk along the issuers of a certificate (validarCadenaConfianza in src/efirma/efirma.service.ts):
  the part of certification path validation, section 6.1 of RFC 5280, that finds a trust anchor.

  `verifies(child, parent)` stands for child.checkIssued(parent) && child.verify(parent.publicKey).
 */
module TrustWalk {
  import opened Wrappers

  datatype Certificate = Certificate(der: string, subject: string, issuer: string, fingerprint256: string)

  type Verifies = (Certificate, Certificate) -> bool

  datatype ChainError = UntrustedRoot | NoIssuer | Cycle

  predicate IsSelfIssued(c: Certificate) {
    c.issuer == c.subject
  }

  function Fingerprints(trust: seq<Certificate>): set<string> {
    set c | c in trust :: c.fingerprint256
  }

  predicate IsTrustedRoot(trust: seq<Certificate>, c: Certificate) {
    IsSelfIssued(c) && c.fingerprint256 in Fingerprints(trust)
  }

  /** No certificate listed before the k-th issued `c`. */
  predicate NoneBefore(trust: seq<Certificate>, verifies: Verifies, c: Certificate, k: nat)
    requires k <= |trust|
  {
    forall i :: 0 <= i < k ==> !verifies(c, trust[i])
  }

  /** The first certificate of the directory that issued `c`. */
  function FirstIssuer(trust: seq<Certificate>, verifies: Verifies, c: Certificate): (r: Option<Certificate>)
    ensures r.Some? ==> r.value in trust && verifies(c, r.value)
    ensures r.None? ==> forall i :: i in trust ==> !verifies(c, i)
  {
    if trust == [] then None
    else if verifies(c, trust[0]) then Some(trust[0])
    else FirstIssuer(trust[1..], verifies, c)
  }

  /** Of several issuers it is the one listed first. */
  lemma {:induction false} FirstIssuerIsFirst(trust: seq<Certificate>, verifies: Verifies, c: Certificate) returns (k: nat)
    requires FirstIssuer(trust, verifies, c).Some?
    ensures k < |trust| && FirstIssuer(trust, verifies, c) == Some(trust[k]) && NoneBefore(trust, verifies, c, k)
  {
    k := 0;
    if !verifies(c, trust[0]) {
      var rest := FirstIssuerIsFirst(trust[1..], verifies, c);
      k := rest + 1;
      forall i | 0 <= i < k ensures !verifies(c, trust[i]) {
        assert i > 0 ==> trust[i] == trust[1..][i - 1];
      }
    }
  }

  /** How the walk ends when it stands at `c` and has passed the issuers in `seen`; None is a trusted root. */
  function Walk(trust: seq<Certificate>, verifies: Verifies, c: Certificate, seen: set<string>): Option<ChainError>
    decreases |Fingerprints(trust) - seen|
  {
    if IsSelfIssued(c) then
      if IsTrustedRoot(trust, c) then None else Some(UntrustedRoot)
    else
      var issuer := FirstIssuer(trust, verifies, c);
      if issuer.None? then Some(NoIssuer)
      else if issuer.value.fingerprint256 in seen then Some(Cycle)
      else
        Shrinks(trust, issuer.value, seen);
        Walk(trust, verifies, issuer.value, seen + {issuer.value.fingerprint256})
  }

  /** Every step that goes on uses up a fingerprint of the directory. */
  lemma Shrinks(trust: seq<Certificate>, issuer: Certificate, seen: set<string>)
    requires issuer in trust && issuer.fingerprint256 !in seen
    ensures |Fingerprints(trust) - (seen + {issuer.fingerprint256})| == |Fingerprints(trust) - seen| - 1
  {
    assert issuer.fingerprint256 in Fingerprints(trust) - seen;
    assert Fingerprints(trust) - (seen + {issuer.fingerprint256})
        == (Fingerprints(trust) - seen) - {issuer.fingerprint256};
  }

  lemma WalkGoesOn(trust: seq<Certificate>, verifies: Verifies, c: Certificate, seen: set<string>, issuer: Certificate)
    requires !IsSelfIssued(c) && FirstIssuer(trust, verifies, c) == Some(issuer) && issuer.fingerprint256 !in seen
    ensures Walk(trust, verifies, c, seen) == Walk(trust, verifies, issuer, seen + {issuer.fingerprint256})
  {
  }

  /** What the caller gets: the immediate issuer, or the certificate itself when it is the root. */
  function Answer(trust: seq<Certificate>, verifies: Verifies, leaf: Certificate): Result<Certificate, ChainError> {
    match Walk(trust, verifies, leaf, {})
    case Some(e) => Failure(e)
    case None =>
      if IsSelfIssued(leaf) then Success(leaf)
      else
        match FirstIssuer(trust, verifies, leaf)
        case Some(issuer) => Success(issuer)
        case None => Failure(NoIssuer)
  }

  /** `steps` counts the certificates the loop looks at. */
  method ValidarCadenaConfianza(trust: seq<Certificate>, verifies: Verifies, leaf: Certificate)
    returns (result: Result<Certificate, ChainError>, ghost steps: nat)
    ensures result == Answer(trust, verifies, leaf)
    ensures steps <= |Fingerprints(trust)| + 1
  {
    var actual := leaf;
    var emisorInmediato: Option<Certificate> := None;
    var vistos: set<string> := {};
    steps := 1;
    ghost var left := |Fingerprints(trust)|;
    assert Fingerprints(trust) - vistos == Fingerprints(trust);
    while true
      invariant Walk(trust, verifies, leaf, {}) == Walk(trust, verifies, actual, vistos)
      invariant emisorInmediato.None? ==> actual == leaf
      invariant emisorInmediato.Some? ==> !IsSelfIssued(leaf) && FirstIssuer(trust, verifies, leaf) == emisorInmediato
      invariant left == |Fingerprints(trust) - vistos| && steps + left == |Fingerprints(trust)| + 1
      decreases left
    {
      if actual.issuer == actual.subject {
        var esRaizConfiable := exists raiz :: raiz in trust && raiz.fingerprint256 == actual.fingerprint256;
        if !esRaizConfiable {
          return Failure(UntrustedRoot), steps;
        }
        if emisorInmediato.None? {
          emisorInmediato := Some(actual);
        }
        return Success(emisorInmediato.value), steps;
      }
      var emisor := FirstIssuer(trust, verifies, actual);
      if emisor.None? {
        return Failure(NoIssuer), steps;
      }
      if emisorInmediato.None? {
        emisorInmediato := emisor;
      }
      if emisor.value.fingerprint256 in vistos {
        return Failure(Cycle), steps;
      }
      Shrinks(trust, emisor.value, vistos);
      WalkGoesOn(trust, verifies, actual, vistos, emisor.value);
      vistos := vistos + {emisor.value.fingerprint256};
      actual := emisor.value;
      steps, left := steps + 1, left - 1;
    }
  }

  // ------------------------------------------------------------------------------------------
  // Certification paths.
  // ------------------------------------------------------------------------------------------

  /** Certificates from the leaf upwards, the newest issuer outermost. */
  datatype Path = Leaf(end: Certificate) | Up(below: Path, end: Certificate)

  function First(p: Path): Certificate {
    if p.Leaf? then p.end else First(p.below)
  }

  function Length(p: Path): nat {
    if p.Leaf? then 1 else Length(p.below) + 1
  }

  function Certificates(p: Path): set<Certificate> {
    if p.Leaf? then {p.end} else Certificates(p.below) + {p.end}
  }

  /** Each certificate issued by the next, which is in the directory. */
  predicate IsIssuance(trust: seq<Certificate>, verifies: Verifies, p: Path) {
    p.Up? ==> IsIssuance(trust, verifies, p.below) && p.end in trust && verifies(p.below.end, p.end)
  }

  /** ... and none but the last self-issued. */
  predicate IsPath(trust: seq<Certificate>, verifies: Verifies, p: Path) {
    p.Up? ==> IsPath(trust, verifies, p.below) && !IsSelfIssued(p.below.end) && p.end in trust && verifies(p.below.end, p.end)
  }

  /** ... and each issued by the first issuer the directory offers. */
  predicate IsGreedy(trust: seq<Certificate>, verifies: Verifies, p: Path) {
    p.Up? ==>
      && IsGreedy(trust, verifies, p.below) && !IsSelfIssued(p.below.end)
      && FirstIssuer(trust, verifies, p.below.end) == Some(p.end)
  }

  /** A path from the leaf to a trust anchor. */
  predicate LeadsToRoot(trust: seq<Certificate>, verifies: Verifies, leaf: Certificate, p: Path) {
    IsPath(trust, verifies, p) && First(p) == leaf && IsTrustedRoot(trust, p.end)
  }

  predicate LeadsGreedilyToRoot(trust: seq<Certificate>, verifies: Verifies, leaf: Certificate, p: Path) {
    IsGreedy(trust, verifies, p) && First(p) == leaf && IsTrustedRoot(trust, p.end)
  }

  ghost predicate DistinctFingerprints(trust: seq<Certificate>) {
    forall a, b :: a in trust && b in trust && a.fingerprint256 == b.fingerprint256 ==> a == b
  }

  /** At most one certificate of the directory issued each certificate the walk can meet. */
  ghost predicate UniqueIssuers(trust: seq<Certificate>, verifies: Verifies, leaf: Certificate) {
    forall c, a, b :: (c == leaf || c in trust) && a in trust && b in trust && verifies(c, a) && verifies(c, b) ==> a == b
  }

  /** The walk cannot go on from `c`. */
  predicate IsOver(trust: seq<Certificate>, verifies: Verifies, c: Certificate) {
    IsSelfIssued(c) || FirstIssuer(trust, verifies, c).None?
  }

  /** Inside `loop` the walk goes on for ever. */
  predicate IsLoop(trust: seq<Certificate>, verifies: Verifies, loop: set<Certificate>) {
    forall c :: c in loop ==> !IsOver(trust, verifies, c) && FirstIssuer(trust, verifies, c).value in loop
  }

  predicate EndsAs(trust: seq<Certificate>, verifies: Verifies, p: Path, outcome: Option<ChainError>) {
    match outcome
    case None => IsTrustedRoot(trust, p.end)
    case Some(UntrustedRoot) => IsSelfIssued(p.end) && !IsTrustedRoot(trust, p.end)
    case Some(NoIssuer) => !IsSelfIssued(p.end) && FirstIssuer(trust, verifies, p.end).None?
    case Some(Cycle) => IsLoop(trust, verifies, Certificates(p))
  }

  /** The fingerprints of the issuers on a path. */
  function Passed(p: Path): set<string> {
    if p.Leaf? then {} else Passed(p.below) + {p.end.fingerprint256}
  }

  lemma {:induction false} FirstIsOnPath(p: Path)
    ensures First(p) in Certificates(p) && p.end in Certificates(p)
  {
    if p.Up? {
      FirstIsOnPath(p.below);
    }
  }

  lemma {:induction false} PassedIsOnPath(trust: seq<Certificate>, verifies: Verifies, p: Path, c: Certificate)
    requires DistinctFingerprints(trust) && IsGreedy(trust, verifies, p) && c in trust && c.fingerprint256 in Passed(p)
    ensures c in Certificates(p)
  {
    if c.fingerprint256 in Passed(p.below) {
      PassedIsOnPath(trust, verifies, p.below, c);
    } else {
      assert p.end in trust;
    }
  }

  /** Every certificate on a greedy path but its end has its issuer on the path too. */
  lemma {:induction false} PathHoldsIssuers(trust: seq<Certificate>, verifies: Verifies, p: Path, c: Certificate)
    requires IsGreedy(trust, verifies, p) && c in Certificates(p) && c != p.end
    ensures !IsOver(trust, verifies, c) && FirstIssuer(trust, verifies, c).value in Certificates(p)
  {
    if c != p.below.end {
      PathHoldsIssuers(trust, verifies, p.below, c);
    }
  }

  /** The walk from the end of `p` goes on along one greedy path, and its end tells the outcome. */
  lemma {:induction false} WalkFollowsPath(trust: seq<Certificate>, verifies: Verifies, p: Path) returns (path: Path)
    requires DistinctFingerprints(trust) && IsGreedy(trust, verifies, p)
    ensures IsGreedy(trust, verifies, path) && First(path) == First(p)
    ensures EndsAs(trust, verifies, path, Walk(trust, verifies, p.end, Passed(p)))
    decreases |Fingerprints(trust) - Passed(p)|
  {
    path := p;
    if !IsOver(trust, verifies, p.end) {
      var issuer := FirstIssuer(trust, verifies, p.end).value;
      if issuer.fingerprint256 in Passed(p) {
        PassedIsOnPath(trust, verifies, p, issuer);
        forall c | c in Certificates(p)
          ensures !IsOver(trust, verifies, c) && FirstIssuer(trust, verifies, c).value in Certificates(p)
        {
          if c != p.end {
            PathHoldsIssuers(trust, verifies, p, c);
          }
        }
      } else {
        Shrinks(trust, issuer, Passed(p));
        path := WalkFollowsPath(trust, verifies, Up(p, issuer));
      }
    }
  }

  /** There is only one greedy path of each length. */
  lemma {:induction false} GreedyPathsAgree(trust: seq<Certificate>, verifies: Verifies, p: Path, q: Path)
    requires IsGreedy(trust, verifies, p) && IsGreedy(trust, verifies, q)
    requires First(p) == First(q) && Length(p) == Length(q)
    ensures p == q
  {
    if p.Up? {
      GreedyPathsAgree(trust, verifies, p.below, q.below);
    }
  }

  /** A greedy path that cannot go on is the longest. */
  lemma {:induction false} OverIsLongest(trust: seq<Certificate>, verifies: Verifies, p: Path, q: Path)
    requires IsGreedy(trust, verifies, p) && IsGreedy(trust, verifies, q) && First(p) == First(q)
    requires IsOver(trust, verifies, p.end)
    ensures Length(q) <= Length(p)
  {
    if q.Up? {
      OverIsLongest(trust, verifies, p, q.below);
      if Length(q.below) == Length(p) {
        GreedyPathsAgree(trust, verifies, p, q.below);
      }
    }
  }

  /** Nothing leaves a loop. */
  lemma {:induction false} PathStaysInLoop(trust: seq<Certificate>, verifies: Verifies, p: Path, loop: set<Certificate>)
    requires IsGreedy(trust, verifies, p) && IsLoop(trust, verifies, loop) && First(p) in loop
    ensures p.end in loop
  {
    if p.Up? {
      PathStaysInLoop(trust, verifies, p.below, loop);
    }
  }

  lemma GreedyIsPath(trust: seq<Certificate>, verifies: Verifies, p: Path)
    requires IsGreedy(trust, verifies, p)
    ensures IsPath(trust, verifies, p)
  {
  }

  /** A greedy path to a root is where the walk ends. */
  lemma RootIsFound(trust: seq<Certificate>, verifies: Verifies, path: Path, walked: Path, outcome: Option<ChainError>)
    requires IsGreedy(trust, verifies, path) && IsTrustedRoot(trust, path.end)
    requires IsGreedy(trust, verifies, walked) && EndsAs(trust, verifies, walked, outcome) && First(walked) == First(path)
    ensures outcome.None?
  {
    if outcome == Some(Cycle) {
      FirstIsOnPath(walked);
      RootIsOutsideLoops(trust, verifies, path, Certificates(walked));
    } else {
      OtherEndsAreOver(trust, verifies, walked, outcome);
      EndsAgree(trust, verifies, path, walked);
    }
  }

  lemma RootIsOutsideLoops(trust: seq<Certificate>, verifies: Verifies, path: Path, loop: set<Certificate>)
    requires IsGreedy(trust, verifies, path) && IsSelfIssued(path.end) && First(path) in loop
    ensures !IsLoop(trust, verifies, loop)
  {
    if IsLoop(trust, verifies, loop) {
      PathStaysInLoop(trust, verifies, path, loop);
    }
  }

  lemma EndsAgree(trust: seq<Certificate>, verifies: Verifies, p: Path, q: Path)
    requires IsGreedy(trust, verifies, p) && IsGreedy(trust, verifies, q) && First(p) == First(q)
    requires IsOver(trust, verifies, p.end) && IsOver(trust, verifies, q.end)
    ensures p == q
  {
    OverIsLongest(trust, verifies, p, q);
    OverIsLongest(trust, verifies, q, p);
    GreedyPathsAgree(trust, verifies, p, q);
  }

  lemma OtherEndsAreOver(trust: seq<Certificate>, verifies: Verifies, p: Path, outcome: Option<ChainError>)
    requires EndsAs(trust, verifies, p, outcome) && outcome != Some(Cycle)
    ensures IsOver(trust, verifies, p.end)
  {
  }

  /** For every directory: accepted if and only if the greedy path leads to a root. */
  lemma AcceptedIffGreedyPath(trust: seq<Certificate>, verifies: Verifies, leaf: Certificate)
    requires DistinctFingerprints(trust)
    ensures Answer(trust, verifies, leaf).Success?
       <==> exists path :: LeadsGreedilyToRoot(trust, verifies, leaf, path)
  {
    var walked := WalkFollowsPath(trust, verifies, Leaf(leaf));
    forall path | LeadsGreedilyToRoot(trust, verifies, leaf, path) ensures Walk(trust, verifies, leaf, {}).None? {
      RootIsFound(trust, verifies, path, walked, Walk(trust, verifies, leaf, {}));
    }
    if Walk(trust, verifies, leaf, {}).None? {
      assert LeadsGreedilyToRoot(trust, verifies, leaf, walked);
    }
  }

  lemma {:induction false} UniquePathIsGreedy(trust: seq<Certificate>, verifies: Verifies, leaf: Certificate, p: Path)
    requires UniqueIssuers(trust, verifies, leaf) && IsPath(trust, verifies, p) && First(p) == leaf
    ensures IsGreedy(trust, verifies, p) && (p.end == leaf || p.end in trust)
  {
    if p.Up? {
      UniquePathIsGreedy(trust, verifies, leaf, p.below);
      var issuer := FirstIssuer(trust, verifies, p.below.end);
      assert issuer.Some? && verifies(p.below.end, issuer.value);
    }
  }

  /** Exactness: with at most one issuer each, accepted if and only if any path leads to a root. */
  lemma AcceptedIffPath(trust: seq<Certificate>, verifies: Verifies, leaf: Certificate)
    requires DistinctFingerprints(trust) && UniqueIssuers(trust, verifies, leaf)
    ensures Answer(trust, verifies, leaf).Success? <==> exists path :: LeadsToRoot(trust, verifies, leaf, path)
  {
    AcceptedIffGreedyPath(trust, verifies, leaf);
    forall path | LeadsToRoot(trust, verifies, leaf, path) ensures LeadsGreedilyToRoot(trust, verifies, leaf, path) {
      UniquePathIsGreedy(trust, verifies, leaf, path);
    }
    forall path | LeadsGreedilyToRoot(trust, verifies, leaf, path) ensures LeadsToRoot(trust, verifies, leaf, path) {
      GreedyIsPath(trust, verifies, path);
    }
  }

  predicate IsGreedyFrom(trust: seq<Certificate>, verifies: Verifies, leaf: Certificate, p: Path) {
    IsGreedy(trust, verifies, p) && First(p) == leaf
  }

  /** A cycle is reported if and only if there is one: every greedy path goes on, and none meets a root. */
  lemma CycleIffEndless(trust: seq<Certificate>, verifies: Verifies, leaf: Certificate)
    requires DistinctFingerprints(trust)
    ensures Answer(trust, verifies, leaf) == Failure(Cycle)
       <==> forall p :: IsGreedyFrom(trust, verifies, leaf, p) ==> !IsOver(trust, verifies, p.end)
  {
    var walked := WalkFollowsPath(trust, verifies, Leaf(leaf));
    assert IsGreedyFrom(trust, verifies, leaf, walked);
    if Walk(trust, verifies, leaf, {}) == Some(Cycle) {
      forall p | IsGreedyFrom(trust, verifies, leaf, p) ensures !IsOver(trust, verifies, p.end) {
        FirstIsOnPath(walked);
        PathStaysInLoop(trust, verifies, p, Certificates(walked));
      }
    } else {
      OtherEndsAreOver(trust, verifies, walked, Walk(trust, verifies, leaf, {}));
    }
  }

  /** The path of the certificate's issuer. */
  function Above(p: Path): Path
    requires p.Up?
  {
    if p.below.Leaf? then Leaf(p.end) else Up(Above(p.below), p.end)
  }

  lemma {:induction false} AboveIsPath(trust: seq<Certificate>, verifies: Verifies, p: Path)
    requires p.Up? && IsGreedy(trust, verifies, p)
    ensures IsGreedy(trust, verifies, Above(p)) && Above(p).end == p.end && !IsSelfIssued(First(p))
    ensures FirstIssuer(trust, verifies, First(p)) == Some(First(Above(p)))
  {
    if p.below.Up? {
      AboveIsPath(trust, verifies, p.below);
    }
  }

  predicate IsImmediateIssuer(trust: seq<Certificate>, verifies: Verifies, leaf: Certificate, issuer: Certificate) {
    || (issuer == leaf && IsTrustedRoot(trust, leaf))
    || (!IsSelfIssued(leaf) && issuer in trust && verifies(leaf, issuer))
  }

  /** What comes back is the certificate itself when it is a root, else its issuer, itself on a path to a root. */
  lemma AnswerIsImmediateIssuer(trust: seq<Certificate>, verifies: Verifies, leaf: Certificate)
    requires DistinctFingerprints(trust) && Answer(trust, verifies, leaf).Success?
    ensures IsImmediateIssuer(trust, verifies, leaf, Answer(trust, verifies, leaf).value)
    ensures exists path :: LeadsGreedilyToRoot(trust, verifies, Answer(trust, verifies, leaf).value, path)
  {
    AcceptedIffGreedyPath(trust, verifies, leaf);
    var path :| LeadsGreedilyToRoot(trust, verifies, leaf, path);
    if path.Up? {
      AboveIsPath(trust, verifies, path);
      assert LeadsGreedilyToRoot(trust, verifies, First(Above(path)), Above(path));
    }
  }

  // ------------------------------------------------------------------------------------------
  // Where the walk is not exact.
  // ------------------------------------------------------------------------------------------

  /** The first issuer is the only one tried: a dead end listed first hides a root. */
  lemma FirstIssuerHidesRoot()
    returns (trust: seq<Certificate>, verifies: Verifies, leaf: Certificate, path: Path)
    ensures DistinctFingerprints(trust) && LeadsToRoot(trust, verifies, leaf, path)
    ensures Answer(trust, verifies, leaf) == Failure(NoIssuer)
  {
    leaf := Certificate("0", "leaf", "ca", "0");
    var lost, root := Certificate("1", "ca", "gone", "1"), Certificate("2", "ca", "ca", "2");
    trust, path := [lost, root], Up(Leaf(leaf), root);
    verifies := (child: Certificate, parent: Certificate) => child.issuer == parent.subject;
    assert trust[0] == lost && verifies(leaf, trust[0]);
    assert FirstIssuer(trust, verifies, leaf) == Some(lost);
    assert FirstIssuer(trust, verifies, lost).None?;
    assert Walk(trust, verifies, lost, {lost.fingerprint256}) == Some(NoIssuer);
    assert {} + {lost.fingerprint256} == {lost.fingerprint256};
  }

  /** Some verified issuances lead from the leaf to a root, self-issued certificates on the way allowed. */
  predicate IsAnchoredBy(trust: seq<Certificate>, verifies: Verifies, leaf: Certificate, p: Path) {
    IsIssuance(trust, verifies, p) && First(p) == leaf && IsTrustedRoot(trust, p.end)
  }

  /** The lower part of `p`, up to its first self-issued certificate. */
  lemma {:induction false} CutAtRoot(trust: seq<Certificate>, verifies: Verifies, leaf: Certificate, p: Path)
    returns (short: Path)
    requires IsIssuance(trust, verifies, p) && First(p) == leaf
    requires IsSelfIssued(leaf) ==> IsTrustedRoot(trust, leaf)
    ensures IsPath(trust, verifies, short) && First(short) == leaf
    ensures IsTrustedRoot(trust, short.end) || short == p
  {
    short := p;
    if p.Up? {
      short := CutAtRoot(trust, verifies, leaf, p.below);
      if !IsTrustedRoot(trust, short.end) {
        assert p.below.Up? ==> p.below.end in trust;
        short := p;
      }
    }
  }

  /**
    Stopping at self-issued certificates loses only the self-issued leaves outside the directory:
    any other anchored leaf has a path.
   */
  lemma AnchoredIffPath(trust: seq<Certificate>, verifies: Verifies, leaf: Certificate)
    requires IsSelfIssued(leaf) ==> IsTrustedRoot(trust, leaf)
    ensures (exists p :: IsAnchoredBy(trust, verifies, leaf, p)) <==> exists p :: LeadsToRoot(trust, verifies, leaf, p)
  {
    forall p | IsAnchoredBy(trust, verifies, leaf, p) ensures exists q :: LeadsToRoot(trust, verifies, leaf, q) {
      var short := CutAtRoot(trust, verifies, leaf, p);
      assert LeadsToRoot(trust, verifies, leaf, short);
    }
    forall p | LeadsToRoot(trust, verifies, leaf, p) ensures IsAnchoredBy(trust, verifies, leaf, p) {
      PathIsIssuance(trust, verifies, p);
    }
  }

  lemma PathIsIssuance(trust: seq<Certificate>, verifies: Verifies, p: Path)
    requires IsPath(trust, verifies, p)
    ensures IsIssuance(trust, verifies, p)
  {
  }

  /** A self-issued leaf outside the directory is refused even when a root of the directory issued it. */
  lemma SelfIssuedLeafIsRefused()
    returns (trust: seq<Certificate>, verifies: Verifies, leaf: Certificate, path: Path)
    ensures DistinctFingerprints(trust) && UniqueIssuers(trust, verifies, leaf)
    ensures IsAnchoredBy(trust, verifies, leaf, path)
    ensures Answer(trust, verifies, leaf) == Failure(UntrustedRoot)
  {
    leaf := Certificate("0", "ca", "ca", "0");
    var root := Certificate("1", "ca", "ca", "1");
    trust, path := [root], Up(Leaf(leaf), root);
    verifies := (child: Certificate, parent: Certificate) => child.issuer == parent.subject;
  }
}
