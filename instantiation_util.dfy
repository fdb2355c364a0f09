/**
 * `InstantiationUtil.resolveConstructor`: the priority-ordered choice of the one constructor the
 * container will use for a class.
 */
module InstantiationUtil {
  import opened Reflection
  import opened Exceptions

  /** `Constructor.getParameterCount`. */
  function Arity(c: Ctor): nat {
    |c.params|
  }

  /** How many of the parameter types carry @Component. */
  function Components(ps: seq<ParamType>): nat {
    if ps == [] then 0 else (if ps[0].component then 1 else 0) + Components(ps[1..])
  }

  function ComponentCount(c: Ctor): nat {
    Components(c.params)
  }

  /** The two numbers the tie-breaks maximise. */
  datatype Measure = ParamCount | ComponentParams

  function Score(c: Ctor, m: Measure): nat {
    match m
    case ParamCount => Arity(c)
    case ComponentParams => ComponentCount(c)
  }

  /** The filters the resolver applies to the constructor list. */
  datatype Criterion = Marked | Scoring(measure: Measure, n: nat)

  predicate Meets(c: Ctor, k: Criterion) {
    match k
    case Marked => c.autowired
    case Scoring(m, n) => Score(c, m) == n
  }

  /** The constructors of `s` that meet `k`, in their declared order (a stream `filter ... toList`). */
  function Candidates(s: seq<Ctor>, k: Criterion): (r: seq<Ctor>)
    ensures |r| <= |s|
    ensures forall c :: c in r <==> c in s && Meets(c, k)
  {
    if s == [] then [] else (if Meets(s[0], k) then [s[0]] else []) + Candidates(s[1..], k)
  }

  /** The largest score in `s`, or 0 when `s` is empty (`mapToInt ... max().orElse(0)`). */
  function MaxScore(s: seq<Ctor>, m: Measure): (r: nat)
    ensures forall c :: c in s ==> Score(c, m) <= r
  {
    if s == [] then 0
    else
      var rest := MaxScore(s[1..], m);
      if Score(s[0], m) >= rest then Score(s[0], m) else rest
  }

  /**
   * The selection policy: the single @Autowired constructor; otherwise the sole constructor;
   * otherwise the unique one of greatest arity; otherwise, among those, the unique one with the
   * most @Component parameters; otherwise an error.
   */
  function ResolveConstructor(cls: ClassDesc): (r: Result<Ctor>)
    ensures r.Ok? ==> r.value in cls.ctors
    ensures |cls.ctors| == 0 <==> r == Err(NoConstructor(cls.id))
    ensures r.Err? ==> r.error == NoConstructor(cls.id) || r.error.ConstructorResolution?
    ensures r.Err? ==> r.error.beanType == cls.id
  {
    var ctors := cls.ctors;
    if |ctors| == 0 then Err(NoConstructor(cls.id))
    else
      var marked := Candidates(ctors, Marked);
      if |marked| > 0 then
        if |marked| == 1 then Ok(marked[0]) else Err(ConstructorResolution(cls.id, MultipleAutowired))
      else if |ctors| == 1 then Ok(ctors[0])
      else Tiebreak(cls)
  }

  /** The tie-breaks among several unmarked constructors: greatest arity, then most component parameters. */
  function Tiebreak(cls: ClassDesc): (r: Result<Ctor>)
    ensures r.Ok? ==> r.value in cls.ctors
    ensures r.Err? ==> r.error == ConstructorResolution(cls.id, NoUniqueCandidate)
  {
    var widest := Candidates(cls.ctors, Scoring(ParamCount, MaxScore(cls.ctors, ParamCount)));
    if |widest| == 1 then Ok(widest[0])
    else
      var best := Candidates(widest, Scoring(ComponentParams, MaxScore(widest, ComponentParams)));
      if |best| == 1 then Ok(best[0]) else Err(ConstructorResolution(cls.id, NoUniqueCandidate))
  }

  /** `c` wins the tie-breaks: no constructor is wider, none as wide has more component parameters, none ties on both. */
  ghost predicate WinsTiebreak(ctors: seq<Ctor>, c: Ctor) {
    && (forall d :: d in ctors ==> Arity(d) <= Arity(c))
    && (forall d :: d in ctors && Arity(d) == Arity(c) ==> ComponentCount(d) <= ComponentCount(c))
    && (forall d :: d in ctors && Arity(d) == Arity(c) && ComponentCount(d) == ComponentCount(c) ==> d == c)
  }

  // ---------------------------------------------------------------------------------------------
  // The policy stated declaratively, and its agreement with ResolveConstructor.

  /** Java never declares two constructors of one class with the same parameter types. */
  ghost predicate DistinctSignatures(ctors: seq<Ctor>) {
    forall i, j :: 0 <= i < j < |ctors| ==> ctors[i].params != ctors[j].params
  }

  ghost predicate Distinct(s: seq<Ctor>) {
    forall i, j :: 0 <= i < j < |s| ==> s[i] != s[j]
  }

  /** `c` is the constructor the priority rules designate among `ctors`. */
  ghost predicate Selects(ctors: seq<Ctor>, c: Ctor) {
    && c in ctors
    && if exists d :: d in ctors && d.autowired then
         c.autowired && forall d :: d in ctors && d.autowired ==> d == c
       else if |ctors| == 1 then true
       else WinsTiebreak(ctors, c)
  }

  lemma DistinctTail(s: seq<Ctor>)
    requires Distinct(s) && s != []
    ensures Distinct(s[1..]) && s[0] !in s[1..]
  {
    forall i, j | 0 <= i < j < |s[1..]| ensures s[1..][i] != s[1..][j] {
      assert s[1..][i] == s[i + 1] && s[1..][j] == s[j + 1];
    }
    forall i | 0 <= i < |s[1..]| ensures s[1..][i] != s[0] {
      assert s[1..][i] == s[i + 1];
    }
  }

  lemma {:induction false} CandidatesOfDistinct(s: seq<Ctor>, k: Criterion)
    requires Distinct(s)
    ensures Distinct(Candidates(s, k))
  {
    if s != [] {
      DistinctTail(s);
      CandidatesOfDistinct(s[1..], k);
    }
  }

  /** In a list without repeats, a constructor that alone meets `k` is the whole filtered list. */
  lemma {:induction false} UniqueCandidate(s: seq<Ctor>, k: Criterion, c: Ctor)
    requires Distinct(s) && c in s && Meets(c, k)
    requires forall d :: d in s && Meets(d, k) ==> d == c
    ensures Candidates(s, k) == [c]
  {
    DistinctTail(s);
    if s[0] == c {
      forall d | d in s[1..] ensures !Meets(d, k) {
        assert d in s;
      }
      NoCandidates(s[1..], k);
    } else {
      UniqueCandidate(s[1..], k, c);
    }
  }

  lemma {:induction false} NoCandidates(s: seq<Ctor>, k: Criterion)
    requires forall d :: d in s ==> !Meets(d, k)
    ensures Candidates(s, k) == []
  {
    if s != [] {
      NoCandidates(s[1..], k);
    }
  }

  lemma SignaturesDistinguish(ctors: seq<Ctor>)
    requires DistinctSignatures(ctors)
    ensures Distinct(ctors)
  {
  }

  /** A constructor of `s` that attains the maximum score. */
  lemma {:induction false} MaxWitness(s: seq<Ctor>, m: Measure) returns (w: Ctor)
    requires s != []
    ensures w in s && Score(w, m) == MaxScore(s, m)
  {
    if |s| == 1 || Score(s[0], m) >= MaxScore(s[1..], m) {
      w := s[0];
    } else {
      w := MaxWitness(s[1..], m);
    }
  }

  lemma MaxScoreOf(s: seq<Ctor>, m: Measure, c: Ctor)
    requires c in s && forall d :: d in s ==> Score(d, m) <= Score(c, m)
    ensures MaxScore(s, m) == Score(c, m)
  {
    var w := MaxWitness(s, m);
  }

  lemma TiebreakIsSelected(cls: ClassDesc)
    requires Tiebreak(cls).Ok?
    ensures WinsTiebreak(cls.ctors, Tiebreak(cls).value)
  {
    var c := Tiebreak(cls).value;
    var widest := Candidates(cls.ctors, Scoring(ParamCount, MaxScore(cls.ctors, ParamCount)));
    if |widest| == 1 {
      assert widest == [c];
    } else {
      var best := Candidates(widest, Scoring(ComponentParams, MaxScore(widest, ComponentParams)));
      assert best == [c];
      assert c in widest;
    }
  }

  lemma SelectedWinsTiebreak(cls: ClassDesc, c: Ctor)
    requires Distinct(cls.ctors) && c in cls.ctors && WinsTiebreak(cls.ctors, c)
    ensures Tiebreak(cls) == Ok(c)
  {
    var ctors := cls.ctors;
    MaxScoreOf(ctors, ParamCount, c);
    var widest := Candidates(ctors, Scoring(ParamCount, Arity(c)));
    CandidatesOfDistinct(ctors, Scoring(ParamCount, Arity(c)));
    if |widest| != 1 {
      MaxScoreOf(widest, ComponentParams, c);
      UniqueCandidate(widest, Scoring(ComponentParams, ComponentCount(c)), c);
    } else {
      assert c in widest;
    }
  }

  /** Whatever ResolveConstructor returns is the constructor the rules designate. */
  lemma ResolvedIsSelected(cls: ClassDesc)
    requires ResolveConstructor(cls).Ok?
    ensures Selects(cls.ctors, ResolveConstructor(cls).value)
  {
    var ctors := cls.ctors;
    var c := ResolveConstructor(cls).value;
    var marked := Candidates(ctors, Marked);
    if |marked| > 0 {
      assert marked == [c];
    } else if |ctors| == 1 {
      assert c == ctors[0];
      assert !c.autowired;
    } else {
      assert forall d :: d in ctors ==> !d.autowired;
      TiebreakIsSelected(cls);
    }
  }

  /** The constructor the rules designate is what ResolveConstructor returns. */
  lemma SelectedIsResolved(cls: ClassDesc, c: Ctor)
    requires DistinctSignatures(cls.ctors)
    requires Selects(cls.ctors, c)
    ensures ResolveConstructor(cls) == Ok(c)
  {
    var ctors := cls.ctors;
    SignaturesDistinguish(ctors);
    if exists d :: d in ctors && d.autowired {
      UniqueCandidate(ctors, Marked, c);
    } else {
      NoCandidates(ctors, Marked);
      if |ctors| != 1 {
        SelectedWinsTiebreak(cls, c);
      }
    }
  }

  /** ResolveConstructor succeeds with `c` exactly when the priority rules designate `c`. */
  lemma ResolveMatchesPolicy(cls: ClassDesc, c: Ctor)
    requires DistinctSignatures(cls.ctors)
    ensures ResolveConstructor(cls) == Ok(c) <==> Selects(cls.ctors, c)
  {
    if ResolveConstructor(cls) == Ok(c) {
      ResolvedIsSelected(cls);
    }
    if Selects(cls.ctors, c) {
      SelectedIsResolved(cls, c);
    }
  }

  // ---------------------------------------------------------------------------------------------
  // Individual rules.

  /** A uniquely marked constructor wins, whatever the arities of the others. */
  lemma UniqueAutowiredChosen(cls: ClassDesc, c: Ctor)
    requires DistinctSignatures(cls.ctors)
    requires c in cls.ctors && c.autowired
    requires forall d :: d in cls.ctors && d.autowired ==> d == c
    ensures ResolveConstructor(cls) == Ok(c)
  {
    SelectedIsResolved(cls, c);
  }

  lemma {:induction false} TwoMeetersCounted(s: seq<Ctor>, k: Criterion, i: nat, j: nat)
    requires i < j < |s| && Meets(s[i], k) && Meets(s[j], k)
    ensures |Candidates(s, k)| >= 2
  {
    if i == 0 {
      assert s[1..][j - 1] == s[j];
      assert s[j] in Candidates(s[1..], k);
    } else {
      assert s[1..][i - 1] == s[i] && s[1..][j - 1] == s[j];
      TwoMeetersCounted(s[1..], k, i - 1, j - 1);
    }
  }

  /** Two @Autowired constructors are always an error, whatever their arities. */
  lemma TwoAutowiredFail(cls: ClassDesc, i: nat, j: nat)
    requires i < j < |cls.ctors| && cls.ctors[i].autowired && cls.ctors[j].autowired
    ensures ResolveConstructor(cls) == Err(ConstructorResolution(cls.id, MultipleAutowired))
  {
    TwoMeetersCounted(cls.ctors, Marked, i, j);
  }

  /** A class with exactly one constructor gets that constructor, marked or not. */
  lemma SoleConstructorChosen(cls: ClassDesc)
    requires |cls.ctors| == 1
    ensures ResolveConstructor(cls) == Ok(cls.ctors[0])
  {
    var c := cls.ctors[0];
    assert cls.ctors[1..] == [];
  }

  /** Without markers and with several constructors, the chosen one has the greatest arity, and the
    * most @Component parameters among those of that arity. */
  lemma WidestChosen(cls: ClassDesc)
    requires |cls.ctors| > 1 && forall d :: d in cls.ctors ==> !d.autowired
    requires ResolveConstructor(cls).Ok?
    ensures forall d :: d in cls.ctors ==> Arity(d) <= Arity(ResolveConstructor(cls).value)
    ensures forall d :: d in cls.ctors && Arity(d) == Arity(ResolveConstructor(cls).value) ==>
              ComponentCount(d) <= ComponentCount(ResolveConstructor(cls).value)
  {
    ResolvedIsSelected(cls);
  }

  // ---------------------------------------------------------------------------------------------
  // The outcome does not depend on the order in which constructors are declared.

  lemma {:induction false} CandidatesCount(s: seq<Ctor>, k: Criterion, x: Ctor)
    ensures multiset(Candidates(s, k))[x] == if Meets(x, k) then multiset(s)[x] else 0
  {
    if s != [] {
      CandidatesCount(s[1..], k, x);
      assert s == [s[0]] + s[1..];
    }
  }

  lemma CandidatesPermute(a: seq<Ctor>, b: seq<Ctor>, k: Criterion)
    requires multiset(a) == multiset(b)
    ensures multiset(Candidates(a, k)) == multiset(Candidates(b, k))
  {
    forall x ensures multiset(Candidates(a, k))[x] == multiset(Candidates(b, k))[x] {
      CandidatesCount(a, k, x);
      CandidatesCount(b, k, x);
    }
  }

  lemma SameElements(a: seq<Ctor>, b: seq<Ctor>)
    requires multiset(a) == multiset(b)
    ensures forall x :: x in a <==> x in b
  {
    forall x
      ensures x in a <==> x in b
    {
      assert x in a <==> x in multiset(a);
      assert x in b <==> x in multiset(b);
    }
  }

  lemma MaxScorePermute(a: seq<Ctor>, b: seq<Ctor>, m: Measure)
    requires multiset(a) == multiset(b)
    ensures MaxScore(a, m) == MaxScore(b, m)
  {
    if a == [] {
      assert |multiset(b)| == 0;
    } else {
      var w := MaxWitness(a, m);
      SameElements(a, b);
      assert forall d :: d in b ==> Score(d, m) <= Score(w, m);
      MaxScoreOf(b, m, w);
    }
  }

  lemma SameSingleton(a: seq<Ctor>, b: seq<Ctor>)
    requires multiset(a) == multiset(b)
    ensures |a| == |b|
    ensures |a| == 1 ==> a[0] == b[0]
  {
    assert |a| == |multiset(a)| == |multiset(b)| == |b|;
    if |a| == 1 {
      assert a[0] in multiset(b);
      assert b == [b[0]];
    }
  }

  /** Listing the same constructors in another order never changes the outcome. */
  lemma ResolveIgnoresOrder(a: ClassDesc, b: ClassDesc)
    requires a.id == b.id && multiset(a.ctors) == multiset(b.ctors)
    ensures ResolveConstructor(a) == ResolveConstructor(b)
  {
    SameSingleton(a.ctors, b.ctors);
    CandidatesPermute(a.ctors, b.ctors, Marked);
    SameSingleton(Candidates(a.ctors, Marked), Candidates(b.ctors, Marked));
    TiebreakIgnoresOrder(a, b);
  }

  lemma TiebreakIgnoresOrder(a: ClassDesc, b: ClassDesc)
    requires a.id == b.id && multiset(a.ctors) == multiset(b.ctors)
    ensures Tiebreak(a) == Tiebreak(b)
  {
    MaxScorePermute(a.ctors, b.ctors, ParamCount);
    var top := MaxScore(a.ctors, ParamCount);
    var wa := Candidates(a.ctors, Scoring(ParamCount, top));
    var wb := Candidates(b.ctors, Scoring(ParamCount, top));
    CandidatesPermute(a.ctors, b.ctors, Scoring(ParamCount, top));
    SameSingleton(wa, wb);
    MaxScorePermute(wa, wb, ComponentParams);
    var most := MaxScore(wa, ComponentParams);
    CandidatesPermute(wa, wb, Scoring(ComponentParams, most));
    SameSingleton(Candidates(wa, Scoring(ComponentParams, most)), Candidates(wb, Scoring(ComponentParams, most)));
  }

  // ---------------------------------------------------------------------------------------------
  // The fixtures of the repository.

  const IntParam := ParamType("int", PrimitiveType(Int), false)

  /** `MyRepository(int)` and `MyRepository()`, neither marked. */
  const MyRepository := ClassDesc("dev.aloc.spring.mybeans.MyRepository",
    [Ctor(false, [IntParam], false), Ctor(false, [], false)], false, false, false, [])

  /** The one-parameter constructor of MyRepository is chosen. */
  lemma MyRepositoryUsesIntConstructor()
    ensures ResolveConstructor(MyRepository) == Ok(Ctor(false, [IntParam], false))
  {
    SelectedIsResolved(MyRepository, Ctor(false, [IntParam], false));
  }

  /** A `MyRepository` parameter: a class carrying @Component. */
  const RepositoryParam := ParamType(MyRepository.id, Reference, true)

  /** A `String` parameter: a class without @Component. */
  const StringParam := ParamType("java.lang.String", Reference, false)

  /** `MyService(MyRepository, String)`, marked @Autowired. */
  const MyService := ClassDesc("dev.aloc.spring.mybeans.MyService",
    [Ctor(true, [RepositoryParam, StringParam], false)], false, false, false, [])
}
