/**
 * The URL handler table of `HandlerMapping`: every @GetMapping method of every @Controller bean,
 * filed under its normalised path, the first registration of a path winning over later ones.
 */
module Web {
  import opened Reflection
  import opened Exceptions
  import Container

  /** A controller instance and the method to run on it. */
  datatype HandlerMethod = HandlerMethod(controller: Handle, handler: MethodDecl)

  type Table = map<string, HandlerMethod>

  /** `Character.isWhitespace`: the Unicode space, line and paragraph separators other than the
   *  no-break spaces, and the control characters tab through carriage return and 1C through 1F. */
  predicate IsWhitespace(c: char) {
    || c == ' ' || ('\t' <= c <= '\r') || ('\U{1C}' <= c <= '\U{1F}')
    || c == '\U{1680}' || ('\U{2000}' <= c <= '\U{2006}') || ('\U{2008}' <= c <= '\U{200A}')
    || c == '\U{2028}' || c == '\U{2029}' || c == '\U{205F}' || c == '\U{3000}'
  }

  /** `String.isBlank`: empty, or whitespace only. */
  predicate IsBlank(s: string) {
    forall i :: 0 <= i < |s| ==> IsWhitespace(s[i])
  }

  /** A path lacking a leading "/" gets one prepended. */
  function Normalize(url: string): (r: string)
    ensures |r| > 0 && r[0] == '/'
    ensures |url| > 0 && url[0] == '/' ==> r == url
    ensures |r| <= |url| + 1
  {
    if |url| > 0 && url[0] == '/' then url else "/" + url
  }

  /** Normalising twice changes nothing. */
  lemma NormalizeIdempotent(url: string)
    ensures Normalize(Normalize(url)) == Normalize(url)
  {
  }

  /** "hello" and "/hello" name the same path, so a controller declaring both collides with itself. */
  lemma MissingSlashCollides()
    ensures Normalize("hello") == Normalize("/hello") == "/hello"
  {
  }

  /** The path a method is mapped to: the value of its @GetMapping, normalised, unless null or blank. */
  function MappedPath(m: MethodDecl): (r: Option<string>)
    ensures r.Some? <==> m.mapping.GetMapping? && m.mapping.value.Some? && !IsBlank(m.mapping.value.value)
    ensures r.Some? ==> r.value == Normalize(m.mapping.value.value)
  {
    match m.mapping
    case NoMapping => None
    case GetMapping(v) =>
      if v.None? || IsBlank(v.value) then None else Some(Normalize(v.value))
  }

  /** One step of the inner loop: a mapped method is filed under its path unless the path is taken. */
  function AddMethod(t: Table, controller: Handle, m: MethodDecl): Table {
    match MappedPath(m)
    case None => t
    case Some(p) => if p in t then t else t[p := HandlerMethod(controller, m)]
  }

  /** The inner loop over a controller's methods, in the order `getDeclaredMethods` lists them. */
  function AddMethods(t: Table, controller: Handle, ms: seq<MethodDecl>): Table
    decreases |ms|
  {
    if ms == [] then t
    else AddMethod(AddMethods(t, controller, ms[..|ms| - 1]), controller, ms[|ms| - 1])
  }

  /**
   * One step of the outer loop: a @Controller class whose instance `getExistingBean` returns has its
   * methods added; other classes, and controllers for which `getExistingBean` fails, are skipped.
   */
  function AddClass(t: Table, s: Container.State, c: ClassDesc): Table {
    if !c.controller then t
    else
      match Container.GetExistingBean(s, c.id)
      case Err(_) => t
      case Ok(h) => AddMethods(t, h, c.methods)
  }

  /** The outer loop over the component classes, in iteration order. */
  function AddClasses(t: Table, s: Container.State, cs: seq<ClassDesc>): Table
    decreases |cs|
  {
    if cs == [] then t
    else AddClass(AddClasses(t, s, cs[..|cs| - 1]), s, cs[|cs| - 1])
  }

  /** Every key is a normalised path. */
  predicate SlashKeys(t: Table) {
    forall p :: p in t ==> |p| > 0 && p[0] == '/'
  }

  /** `t'` keeps every entry of `t`: nothing is removed or overwritten. */
  predicate Keeps(t: Table, t': Table) {
    forall p :: p in t ==> p in t' && t'[p] == t[p]
  }

  /** The first method of `ms` mapped to `p`, or `|ms|` if there is none. */
  function FirstOffer(ms: seq<MethodDecl>, p: string): (j: nat)
    ensures j <= |ms|
    ensures forall i :: 0 <= i < j ==> MappedPath(ms[i]) != Some(p)
    ensures j < |ms| ==> MappedPath(ms[j]) == Some(p)
    decreases |ms|
  {
    if ms == [] then 0
    else if MappedPath(ms[0]) == Some(p) then 0
    else 1 + FirstOffer(ms[1..], p)
  }

  /**
   * Class `c` contributes to the table: it is a @Controller whose cached bean is the object itself.
   * A cached proxy is refused by the cast in `getExistingBean`, so its controller is skipped.
   */
  predicate Serves(s: Container.State, c: ClassDesc) {
    c.controller && c.id in s.beans && s.beans[c.id].Plain?
  }

  /** Class `c` contributes a handler for `p`: it is served and one of its methods is mapped to `p`. */
  predicate Offers(s: Container.State, c: ClassDesc, p: string) {
    Serves(s, c) && FirstOffer(c.methods, p) < |c.methods|
  }

  /** The first class of `cs` that offers a handler for `p`, or `|cs|` if there is none. */
  function FirstClass(s: Container.State, cs: seq<ClassDesc>, p: string): (i: nat)
    ensures i <= |cs|
    ensures forall k :: 0 <= k < i ==> !Offers(s, cs[k], p)
    ensures i < |cs| ==> Offers(s, cs[i], p)
    decreases |cs|
  {
    if cs == [] then 0
    else if Offers(s, cs[0], p) then 0
    else 1 + FirstClass(s, cs[1..], p)
  }

  /** The inner loop keeps every entry, keeps keys normalised, and adds only under mapped paths. */
  lemma {:induction false} AddMethodsKeeps(t: Table, h: Handle, ms: seq<MethodDecl>)
    ensures Keeps(t, AddMethods(t, h, ms))
    ensures SlashKeys(t) ==> SlashKeys(AddMethods(t, h, ms))
    decreases |ms|
  {
    if ms != [] {
      AddMethodsKeeps(t, h, ms[..|ms| - 1]);
    }
  }

  /** Where the first method mapped to `p` lies once one more method is declared. */
  lemma FirstOfferSnoc(ms: seq<MethodDecl>, p: string)
    requires ms != []
    ensures var init := ms[..|ms| - 1]; var j := FirstOffer(init, p);
      FirstOffer(ms, p) == if j < |init| then j else if MappedPath(ms[|ms| - 1]) == Some(p) then |init| else |ms|
  {
    var init := ms[..|ms| - 1];
    var j, j' := FirstOffer(init, p), FirstOffer(ms, p);
    if j < |init| {
      assert ms[j] == init[j];
    }
  }

  /**
   * After the inner loop, path `p` is in the table exactly when it was before or some method is mapped
   * to it; a new entry holds the controller and the FIRST method mapped to `p`.
   */
  lemma {:induction false} AddMethodsFirstWins(t: Table, h: Handle, ms: seq<MethodDecl>, p: string)
    ensures var r := AddMethods(t, h, ms);
      && (p in r <==> p in t || FirstOffer(ms, p) < |ms|)
      && (p !in t && FirstOffer(ms, p) < |ms| ==> r[p] == HandlerMethod(h, ms[FirstOffer(ms, p)]))
    decreases |ms|
  {
    if ms != [] {
      var init := ms[..|ms| - 1];
      AddMethodsFirstWins(t, h, init, p);
      FirstOfferSnoc(ms, p);
      var j := FirstOffer(init, p);
      if j < |init| {
        assert ms[j] == init[j];
      }
    }
  }

  /** The outer loop keeps every entry and keeps keys normalised. */
  lemma {:induction false} AddClassesKeeps(t: Table, s: Container.State, cs: seq<ClassDesc>)
    ensures Keeps(t, AddClasses(t, s, cs))
    ensures SlashKeys(t) ==> SlashKeys(AddClasses(t, s, cs))
    decreases |cs|
  {
    if cs != [] {
      var t' := AddClasses(t, s, cs[..|cs| - 1]);
      AddClassesKeeps(t, s, cs[..|cs| - 1]);
      var c := cs[|cs| - 1];
      if Serves(s, c) {
        AddMethodsKeeps(t', s.beans[c.id], c.methods);
      }
    }
  }

  /** Where the first class serving `p` lies once one more class is scanned. */
  lemma FirstClassSnoc(s: Container.State, cs: seq<ClassDesc>, p: string)
    requires cs != []
    ensures var init := cs[..|cs| - 1]; var i := FirstClass(s, init, p); var c := cs[|cs| - 1];
      FirstClass(s, cs, p) ==
        if i < |init| then i
        else if Offers(s, c, p) then |init|
        else |cs|
  {
    var init := cs[..|cs| - 1];
    var i, i' := FirstClass(s, init, p), FirstClass(s, cs, p);
    if i < |init| {
      assert cs[i] == init[i];
    }
  }

  /** One class added: `p` is filed exactly when it was already or the class offers it, and only then anew. */
  lemma AddClassFiles(t: Table, s: Container.State, c: ClassDesc, p: string)
    ensures var r := AddClass(t, s, c);
      && (p in r <==> p in t || Offers(s, c, p))
      && (p in t ==> r[p] == t[p])
      && (p !in t && Offers(s, c, p) ==>
            r[p] == HandlerMethod(s.beans[c.id], c.methods[FirstOffer(c.methods, p)]))
  {
    if Serves(s, c) {
      AddMethodsFirstWins(t, s.beans[c.id], c.methods, p);
      AddMethodsKeeps(t, s.beans[c.id], c.methods);
    }
  }

  /**
   * After the outer loop, `p` is in the table exactly when it was before or some served controller
   * maps a method to it; a new entry holds the bean of the FIRST such controller and its first
   * method mapped to `p`.
   */
  lemma {:induction false} AddClassesFirstWins(t: Table, s: Container.State, cs: seq<ClassDesc>, p: string)
    ensures var r := AddClasses(t, s, cs); var i := FirstClass(s, cs, p);
      && (p in r <==> p in t || i < |cs|)
      && (p !in t && i < |cs| ==>
            r[p] == HandlerMethod(s.beans[cs[i].id], cs[i].methods[FirstOffer(cs[i].methods, p)]))
    decreases |cs|
  {
    if cs != [] {
      var init := cs[..|cs| - 1];
      AddClassesFirstWins(t, s, init, p);
      FirstClassSnoc(s, cs, p);
      AddClassFiles(AddClasses(t, s, init), s, cs[|cs| - 1], p);
      var i := FirstClass(s, init, p);
      if i < |init| {
        assert cs[i] == init[i];
      }
    }
  }

  /** A controller whose cached bean is a proxy adds nothing: `getExistingBean` refuses it. */
  lemma ProxiedControllerSkipped(t: Table, s: Container.State, c: ClassDesc)
    requires c.id in s.beans && s.beans[c.id].Proxy?
    ensures AddClass(t, s, c) == t
  {
  }

  /** How many methods the classes of `cs` that serve requests declare. */
  function ServedMethods(s: Container.State, cs: seq<ClassDesc>): nat
    decreases |cs|
  {
    if cs == [] then 0
    else ServedMethods(s, cs[..|cs| - 1]) + if Serves(s, cs[|cs| - 1]) then |cs[|cs| - 1].methods| else 0
  }

  /** The inner loop adds at most one path per method and removes none. */
  lemma {:induction false} AddMethodsCount(t: Table, h: Handle, ms: seq<MethodDecl>)
    ensures |t| <= |AddMethods(t, h, ms)| <= |t| + |ms|
    decreases |ms|
  {
    if ms != [] {
      AddMethodsCount(t, h, ms[..|ms| - 1]);
    }
  }

  /** The outer loop adds at most one path per method of a serving controller and removes none. */
  lemma {:induction false} AddClassesCount(t: Table, s: Container.State, cs: seq<ClassDesc>)
    ensures |t| <= |AddClasses(t, s, cs)| <= |t| + ServedMethods(s, cs)
    decreases |cs|
  {
    if cs != [] {
      var init := cs[..|cs| - 1];
      AddClassesCount(t, s, init);
      if Serves(s, cs[|cs| - 1]) {
        AddMethodsCount(AddClasses(t, s, init), s.beans[cs[|cs| - 1].id], cs[|cs| - 1].methods);
      }
    }
  }

  class HandlerMapping {
    /** Path to controller and method. */
    var handlerMethods: Table

    constructor ()
      ensures handlerMethods == map[]
    {
      handlerMethods := map[];
    }

    /**
     * Walks the component classes in iteration order and, for each @Controller whose instance
     * `getExistingBean` returns, each of its methods in the order reflection lists them, filing mapped methods
     * under their path.
     */
    method Initialize(bf: Container.State, componentClasses: seq<ClassDesc>)
      modifies this
      ensures handlerMethods == AddClasses(old(handlerMethods), bf, componentClasses)
    {
      ghost var t0 := handlerMethods;
      for i := 0 to |componentClasses|
        invariant handlerMethods == AddClasses(t0, bf, componentClasses[..i])
      {
        var clazz := componentClasses[i];
        assert componentClasses[..i + 1][..i] == componentClasses[..i];
        if !clazz.controller {
          continue;
        }
        var controller := Container.GetExistingBean(bf, clazz.id);
        if controller.Err? {
          continue;
        }
        ghost var t1 := handlerMethods;
        var methods := clazz.methods;
        for j := 0 to |methods|
          invariant handlerMethods == AddMethods(t1, controller.value, methods[..j])
        {
          var m := methods[j];
          assert methods[..j + 1][..j] == methods[..j];
          if !m.mapping.GetMapping? {
            continue;
          }
          var url := m.mapping.value;
          if url.None? || IsBlank(url.value) {
            continue;
          }
          var path := url.value;
          if !(|path| > 0 && path[0] == '/') {
            path := "/" + path;
          }
          if path in handlerMethods {
            continue;
          }
          handlerMethods := handlerMethods[path := HandlerMethod(controller.value, m)];
        }
        assert methods[..|methods|] == methods;
      }
      assert componentClasses[..|componentClasses|] == componentClasses;
    }

    /** The entry filed under exactly `url`, or nothing. */
    function GetHandler(url: string): (r: Option<HandlerMethod>)
      reads this
      ensures r.Some? <==> url in handlerMethods
      ensures r.Some? ==> r.value == handlerMethods[url]
    {
      if url in handlerMethods then Some(handlerMethods[url]) else None
    }

    /** The number of distinct paths mapped. */
    function GetHandlerCount(): (n: nat)
      reads this
      ensures n == |handlerMethods.Keys|
    {
      |handlerMethods|
    }
  }

  /**
   * A fresh mapping, initialised once: a path is served exactly when some served controller maps a
   * method to it, by the first such controller's first such method; every path starts with "/".
   */
  method InitializeFresh(bf: Container.State, classes: seq<ClassDesc>, p: string)
    returns (r: Option<HandlerMethod>)
    ensures var i := FirstClass(bf, classes, p);
      && (r.Some? <==> i < |classes|)
      && (r.Some? ==> r.value == HandlerMethod(bf.beans[classes[i].id], classes[i].methods[FirstOffer(classes[i].methods, p)]))
      && (r.Some? ==> p[0] == '/')
  {
    var hm := new HandlerMapping();
    hm.Initialize(bf, classes);
    AddClassesFirstWins(map[], bf, classes, p);
    AddClassesKeeps(map[], bf, classes);
    r := hm.GetHandler(p);
  }

  /**
   * A fresh mapping, initialised once, counts at most one handler per method of a serving
   * controller, and at least one as soon as some path is served.
   */
  method CountAfterInitialize(bf: Container.State, classes: seq<ClassDesc>, p: string) returns (n: nat)
    ensures n <= ServedMethods(bf, classes)
    ensures FirstClass(bf, classes, p) < |classes| ==> n >= 1
  {
    var hm := new HandlerMapping();
    hm.Initialize(bf, classes);
    AddClassesCount(map[], bf, classes);
    AddClassesFirstWins(map[], bf, classes, p);
    n := hm.GetHandlerCount();
    if FirstClass(bf, classes, p) < |classes| {
      assert p in hm.handlerMethods;
    }
  }
}
