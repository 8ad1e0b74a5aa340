/** The order of PEP 440, rule by rule on the fields of a version, and that Compare decides
    by exactly these rules. */
module PyOrder {
  import opened Orders
  import opened PyVersion

  // ------------------------------------------------------------------------- releases

  /** A release is followed by zeros. */
  function NumberAt(release: seq<nat>, i: nat): nat {
    if i < |release| then release[i] else 0
  }

  ghost predicate AgreeTo(a: seq<nat>, b: seq<nat>, k: nat) {
    forall i: nat :: i < k ==> NumberAt(a, i) == NumberAt(b, i)
  }

  /** The same numbers, up to trailing zeros. */
  ghost predicate Agree(a: seq<nat>, b: seq<nat>) {
    forall i: nat :: NumberAt(a, i) == NumberAt(b, i)
  }

  ghost predicate BeforeAt(a: seq<nat>, b: seq<nat>, k: nat) {
    AgreeTo(a, b, k) && NumberAt(a, k) < NumberAt(b, k)
  }

  /** The first number that differs is smaller. */
  ghost predicate ReleaseBefore(a: seq<nat>, b: seq<nat>) {
    exists k: nat :: BeforeAt(a, b, k)
  }

  function Rest(a: seq<nat>): seq<nat> {
    if a == [] then [] else a[1..]
  }

  lemma RestNumbers(a: seq<nat>)
    ensures forall i: nat :: NumberAt(Rest(a), i) == NumberAt(a, i + 1)
    ensures forall i: nat :: i > 0 ==> NumberAt(a, i) == NumberAt(Rest(a), i - 1)
  {
  }

  lemma BeforeRest(a: seq<nat>, b: seq<nat>)
    ensures Agree(a, b) <==> NumberAt(a, 0) == NumberAt(b, 0) && Agree(Rest(a), Rest(b))
    ensures ReleaseBefore(a, b) <==>
            NumberAt(a, 0) < NumberAt(b, 0) || (NumberAt(a, 0) == NumberAt(b, 0) && ReleaseBefore(Rest(a), Rest(b)))
  {
    RestNumbers(a);
    RestNumbers(b);
    if NumberAt(a, 0) < NumberAt(b, 0) {
      assert BeforeAt(a, b, 0);
    }
    if k: nat :| BeforeAt(Rest(a), Rest(b), k) && NumberAt(a, 0) == NumberAt(b, 0) {
      assert BeforeAt(a, b, k + 1);
    }
    if k: nat :| BeforeAt(a, b, k) {
      if k > 0 {
        assert BeforeAt(Rest(a), Rest(b), k - 1);
      }
    }
  }

  lemma {:induction false} ReleaseMeans(a: seq<nat>, b: seq<nat>)
    ensures Lex(Strip(a), Strip(b)) < 0 <==> ReleaseBefore(a, b)
    ensures Lex(Strip(a), Strip(b)) == 0 <==> Agree(a, b)
    decreases |a| + |b|
  {
    if a != [] || b != [] {
      StripStep(a, b);
      BeforeRest(a, b);
      ReleaseMeans(Rest(a), Rest(b));
      assert Rest(a) == Tail(a) && Rest(b) == Tail(b);
    }
  }

  // --------------------------------------------------------------------- local labels

  /** Numbers by value and after texts, texts as in a dictionary. */
  ghost predicate SegmentBefore(s: string, t: string) {
    match (Atoi(s), Atoi(t))
    case (Some(m), Some(n)) => m < n
    case (Some(_), None) => false
    case (None, Some(_)) => true
    case (None, None) => TextPrecedes(s, t)
  }

  predicate SameSegment(s: string, t: string) {
    if Atoi(s).Some? then Atoi(s) == Atoi(t) else s == t
  }

  ghost predicate SegmentsAgree(a: seq<string>, b: seq<string>, k: nat) {
    k <= |a| && k <= |b| && forall i: nat :: i < k ==> SameSegment(a[i], b[i])
  }

  ghost predicate LocalBeforeAt(a: seq<string>, b: seq<string>, k: nat) {
    SegmentsAgree(a, b, k) && k < |b| && (k == |a| || SegmentBefore(a[k], b[k]))
  }

  /** The first segment that differs decides; a label comes before its extensions. */
  ghost predicate LocalBefore(a: seq<string>, b: seq<string>) {
    exists k: nat :: LocalBeforeAt(a, b, k)
  }

  ghost predicate SameLocal(a: seq<string>, b: seq<string>) {
    |a| == |b| && SegmentsAgree(a, b, |a|)
  }

  lemma SegmentMeans(s: string, t: string)
    ensures SegmentOrder(s, t) < 0 <==> SegmentBefore(s, t)
    ensures SegmentOrder(s, t) == 0 <==> SameSegment(s, t)
  {
    StringCompareMeans(s, t);
    StringOrder(s, t);
  }

  lemma LocalRest(a: seq<string>, b: seq<string>)
    requires a != [] && b != []
    ensures SameLocal(a, b) <==> SameSegment(a[0], b[0]) && SameLocal(a[1..], b[1..])
    ensures LocalBefore(a, b) <==>
            SegmentBefore(a[0], b[0]) || (SameSegment(a[0], b[0]) && LocalBefore(a[1..], b[1..]))
  {
    if SegmentBefore(a[0], b[0]) {
      assert LocalBeforeAt(a, b, 0);
    }
    if k: nat :| LocalBeforeAt(a[1..], b[1..], k) && SameSegment(a[0], b[0]) {
      forall i: nat | i < k + 1 ensures SameSegment(a[i], b[i]) {
        assert i > 0 ==> SameSegment(a[1..][i - 1], b[1..][i - 1]);
      }
      assert LocalBeforeAt(a, b, k + 1);
    }
    if k: nat :| LocalBeforeAt(a, b, k) {
      if k > 0 {
        assert SameSegment(a[0], b[0]) && LocalBeforeAt(a[1..], b[1..], k - 1);
      }
    }
    if SameSegment(a[0], b[0]) && SameLocal(a[1..], b[1..]) {
      forall i: nat | i < |a| ensures SameSegment(a[i], b[i]) {
        assert i > 0 ==> SameSegment(a[1..][i - 1], b[1..][i - 1]);
      }
    }
  }

  lemma {:induction false} LocalMeans(a: seq<string>, b: seq<string>)
    ensures Lex(LocalKey(a), LocalKey(b)) < 0 <==> LocalBefore(a, b)
    ensures Lex(LocalKey(a), LocalKey(b)) == 0 <==> SameLocal(a, b)
    decreases |a|
  {
    if a != [] && b != [] {
      LexSegment(a[0], b[0], LocalKey(a[1..]), LocalKey(b[1..]));
      SegmentMeans(a[0], b[0]);
      LocalRest(a, b);
      LocalMeans(a[1..], b[1..]);
    } else {
      LeftOver(a, b);
      if a == [] && b != [] {
        assert LocalBeforeAt(a, b, 0);
      }
    }
  }

  // ------------------------------------------------------------------------ the rules

  /** A development release of the final release itself. */
  predicate DevelopmentOnly(v: Version) {
    v.hasDev && !v.hasPre && !v.hasPost
  }

  /** Development-only, then prereleases by kind and number, then everything else. */
  predicate EarlierStage(a: Version, b: Version) {
    || (DevelopmentOnly(a) && !DevelopmentOnly(b))
    || (a.hasPre && !b.hasPre && !DevelopmentOnly(b))
    || (a.hasPre && b.hasPre && a.preKind < b.preKind)
    || (a.hasPre && b.hasPre && a.preKind == b.preKind && a.preNum < b.preNum)
  }

  predicate SameStage(a: Version, b: Version) {
    && DevelopmentOnly(a) == DevelopmentOnly(b) && a.hasPre == b.hasPre
    && (a.hasPre ==> a.preKind == b.preKind && a.preNum == b.preNum)
  }

  predicate EarlierPost(a: Version, b: Version) {
    b.hasPost && (!a.hasPost || a.postNum < b.postNum)
  }

  predicate SamePost(a: Version, b: Version) {
    a.hasPost == b.hasPost && (a.hasPost ==> a.postNum == b.postNum)
  }

  predicate EarlierDev(a: Version, b: Version) {
    a.hasDev && (!b.hasDev || a.devNum < b.devNum)
  }

  predicate SameDev(a: Version, b: Version) {
    a.hasDev == b.hasDev && (a.hasDev ==> a.devNum == b.devNum)
  }

  ghost predicate BeforeInRelease(a: Version, b: Version) {
    || EarlierStage(a, b)
    || (SameStage(a, b) && EarlierPost(a, b))
    || (SameStage(a, b) && SamePost(a, b) && EarlierDev(a, b))
    || (SameStage(a, b) && SamePost(a, b) && SameDev(a, b) && LocalBefore(a.local, b.local))
  }

  /** PEP 440: `a` is the earlier version. */
  ghost predicate Earlier(a: Version, b: Version) {
    || a.epoch < b.epoch
    || (a.epoch == b.epoch && ReleaseBefore(a.release, b.release))
    || (a.epoch == b.epoch && Agree(a.release, b.release) && BeforeInRelease(a, b))
  }

  ghost predicate Equivalent(a: Version, b: Version) {
    && a.epoch == b.epoch && Agree(a.release, b.release)
    && SameStage(a, b) && SamePost(a, b) && SameDev(a, b) && SameLocal(a.local, b.local)
  }

  lemma StageMeans(a: Version, b: Version)
    ensures ComparePre(a, b) < 0 <==> EarlierStage(a, b)
    ensures ComparePre(a, b) == 0 <==> SameStage(a, b)
  {
  }

  lemma OptionalMeans(a: Version, b: Version)
    ensures CompareOptional(a.hasPost, a.postNum, b.hasPost, b.postNum, -1) < 0 <==> EarlierPost(a, b)
    ensures CompareOptional(a.hasPost, a.postNum, b.hasPost, b.postNum, -1) == 0 <==> SamePost(a, b)
    ensures CompareOptional(a.hasDev, a.devNum, b.hasDev, b.devNum, 1) < 0 <==> EarlierDev(a, b)
    ensures CompareOptional(a.hasDev, a.devNum, b.hasDev, b.devNum, 1) == 0 <==> SameDev(a, b)
  {
  }

  /** Compare answers by the rules, and by nothing else. */
  lemma OrderIsPep440(a: Version, b: Version)
    ensures Order(a, b) < 0 <==> Earlier(a, b)
    ensures Order(a, b) == 0 <==> Equivalent(a, b)
    ensures Order(a, b) > 0 <==> Earlier(b, a)
  {
    OrderMeans(a, b);
    OrderMeans(b, a);
    OrderIsTotal(a, b, b);
  }

  lemma OrderMeans(a: Version, b: Version)
    ensures Order(a, b) < 0 <==> Earlier(a, b)
    ensures Order(a, b) == 0 <==> Equivalent(a, b)
  {
    KeyParts(a, b);
    ReleaseMeans(a.release, b.release);
    ReleaseNotBoth(a.release, b.release);
    StageMeans(a, b);
    OptionalMeans(a, b);
    LocalMeans(a.local, b.local);
  }

  lemma ReleaseNotBoth(a: seq<nat>, b: seq<nat>)
    ensures !(Agree(a, b) && ReleaseBefore(a, b))
  {
    ReleaseMeans(a, b);
  }

  /** Within one epoch and one release up to trailing zeros: development releases, alphas,
      betas and candidates, the final release and its post-releases follow each other; a
      development release comes before what it leads to, and a local label after the
      version it is added to. */
  lemma WithinARelease(a: Version, b: Version)
    requires a.epoch == b.epoch && Agree(a.release, b.release)
    ensures a.hasDev && !a.hasPre && !a.hasPost && b.hasPre ==> Order(a, b) < 0
    ensures a.hasPre && b.hasPre && a.preKind < b.preKind ==> Order(a, b) < 0
    ensures a.hasPre && b.hasPre && a.preKind == b.preKind && a.preNum < b.preNum ==> Order(a, b) < 0
    ensures a.hasPre && !b.hasPre && !b.hasDev && !b.hasPost ==> Order(a, b) < 0
    ensures !a.hasPre && !a.hasPost && !b.hasPre && b.hasPost ==> Order(a, b) < 0
    ensures !a.hasPre && a.hasPost && !b.hasPre && b.hasPost && a.postNum < b.postNum ==> Order(a, b) < 0
    ensures a.hasDev && b == a.(hasDev := false, devNum := b.devNum, local := b.local) ==> Order(a, b) < 0
    ensures a.hasDev && a.devNum < b.devNum && b == a.(devNum := b.devNum, local := b.local) ==> Order(a, b) < 0
    ensures a.local == [] && b.local != [] && b == a.(local := b.local) ==> Order(a, b) < 0
  {
    OrderIsPep440(a, b);
    if a.local == [] && b.local != [] {
      assert LocalBeforeAt(a.local, b.local, 0);
    }
  }
}
