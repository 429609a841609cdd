/** The vendor-prefix resolver: given a style property name, the name the
    running engine supports, found by trying the name as written, its
    camel-cased form and then each browser prefix. Results are cached, and
    the first prefixed hit narrows the prefix list to that one prefix. The
    engine is represented by the set of style names it supports. */
module VendorPrefix {
  import opened Js

  /** The prefixes a new resolver tries, in order. */
  const BrowserPrefixes: seq<string> := ["Moz", "Webkit", "O", "ms"]

  /** The later pieces of a hyphenated name, each with its first character
      upper-cased. */
  function CapitalizeAll(parts: seq<string>): (r: seq<string>)
    ensures |r| == |parts|
    ensures forall i :: 0 <= i < |parts| ==> r[i] == Capitalize(parts[i])
  {
    if parts == [] then [] else [Capitalize(parts[0])] + CapitalizeAll(parts[1..])
  }

  /** `_toCamelCase`: `background-color` becomes `backgroundColor`. The
      name is scanned once; a hyphen is dropped and upper-cases the
      character after it. `CamelCaseBySplit` shows this is the split,
      capitalise and join that the library writes. */
  function ToCamelCase(property: string): string
  {
    CamelFrom(property, false)
  }

  /** The camel-cased rest of a name; `up` when a hyphen came just before. */
  function CamelFrom(s: string, up: bool): string
  {
    if s == [] then []
    else if s[0] == '-' then CamelFrom(s[1..], true)
    else [if up then UpperChar(s[0]) else s[0]] + CamelFrom(s[1..], false)
  }

  /** `property.split('-')`, every piece but the first capitalised, joined
      with nothing in between. */
  function SplitCamelCase(property: string): string
  {
    var parts := Split(property, '-');
    Join([parts[0]] + CapitalizeAll(parts[1..]), "")
  }


  lemma JoinNothingCons(w: string, ws: seq<string>)
    ensures Join([w] + ws, "") == w + Join(ws, "")
  {
    if ws == [] {
      assert w + "" == w;
    } else {
      JoinCons(w, ws, "");
      assert w + "" == w;
    }
  }

  /** The scan agrees with the split form for every name. */
  lemma CamelCaseBySplit(property: string)
    ensures ToCamelCase(property) == SplitCamelCase(property)
  {
    CamelFromBySplit(property, false);
  }

  /** The split form of `CamelFrom`: the first piece is capitalised when a
      hyphen came just before. */
  function CamelSplit(s: string, up: bool): string
  {
    var parts := Split(s, '-');
    Join([if up then Capitalize(parts[0]) else parts[0]] + CapitalizeAll(parts[1..]), "")
  }

  lemma {:induction false} CamelFromBySplit(s: string, up: bool)
    ensures CamelFrom(s, up) == CamelSplit(s, up)
  {
    if s != [] {
      CamelFromBySplit(s[1..], s[0] == '-');
      if s[0] == '-' {
        CamelSplitHyphen(s, up);
      } else {
        CamelSplitLetter(s, up);
      }
    }
  }

  lemma CamelSplitHyphen(s: string, up: bool)
    requires s != [] && s[0] == '-'
    ensures CamelSplit(s, up) == CamelSplit(s[1..], true)
  {
    var rest := Split(s[1..], '-');
    assert Split(s, '-') == [""] + rest;
    assert ([""] + rest)[1..] == rest;
    JoinNothingCons("", CapitalizeAll(rest));
    assert CapitalizeAll(rest) == [Capitalize(rest[0])] + CapitalizeAll(rest[1..]);
    assert "" + Join(CapitalizeAll(rest), "") == Join(CapitalizeAll(rest), "");
  }

  lemma CamelSplitLetter(s: string, up: bool)
    requires s != [] && s[0] != '-'
    ensures CamelSplit(s, up) == [if up then UpperChar(s[0]) else s[0]] + CamelSplit(s[1..], false)
  {
    var rest := Split(s[1..], '-');
    SplitLetter(s, '-');
    CamelPieces(s[0], rest[0], CapitalizeAll(rest[1..]), up);
  }

  /** Splitting a name that starts with a non-separator puts that
      character in front of the first piece. */
  lemma SplitLetter(s: string, sep: char)
    requires s != [] && s[0] != sep
    ensures Split(s, sep)[0] == [s[0]] + Split(s[1..], sep)[0]
    ensures Split(s, sep)[1..] == Split(s[1..], sep)[1..]
  {
  }

  lemma CamelPieces(c: char, w: string, ws: seq<string>, up: bool)
    ensures Join([if up then Capitalize([c] + w) else [c] + w] + ws, "") ==
      [if up then UpperChar(c) else c] + Join([w] + ws, "")
  {
    var first := if up then Capitalize([c] + w) else [c] + w;
    assert first == [if up then UpperChar(c) else c] + w;
    JoinNothingCons(first, ws);
    JoinNothingCons(w, ws);
  }

  /** A name without a hyphen is its own camel-cased form. */
  lemma NoHyphenUnchanged(property: string)
    requires '-' !in property
    ensures ToCamelCase(property) == property
  {
    CamelCaseBySplit(property);
    SplitNoSeparator(property, "", '-');
    assert property + "" == property;
  }

  /** The camel-cased form of hyphen-joined segments keeps the first segment,
      capitalises every later one and drops the hyphens. */
  lemma CamelCaseOfSegments(segments: seq<string>)
    requires |segments| >= 1
    requires forall i :: 0 <= i < |segments| ==> '-' !in segments[i]
    ensures ToCamelCase(Join(segments, "-")) == Join([segments[0]] + CapitalizeAll(segments[1..]), "")
  {
    CamelCaseBySplit(Join(segments, "-"));
    SplitJoin(segments, '-');
  }

  /** A camel-cased name never contains a hyphen. */
  lemma CamelCaseHasNoHyphen(property: string)
    ensures '-' !in ToCamelCase(property)
  {
    CamelFromHasNoHyphen(property, false);
  }

  lemma {:induction false} CamelFromHasNoHyphen(s: string, up: bool)
    ensures '-' !in CamelFrom(s, up)
  {
    if s != [] {
      CamelFromHasNoHyphen(s[1..], s[0] == '-');
    }
  }

  /** What a resolver remembers between calls, and the names its cache
      array inherits a member under, which depend on the engine. */
  datatype ResolverState = ResolverState(prefixes: seq<string>, cache: map<string, Option<string>>, inherited: set<string>)

  datatype Resolution = Resolution(name: Option<string>, state: ResolverState)

  /** A cached answer is used only when it is truthy. */
  predicate CachedHit(cache: map<string, Option<string>>, property: string)
  {
    property in cache && cache[property].Some? && cache[property].value != ""
  }

  /** The methods an array inherits from `Array.prototype` and
      `Object.prototype` in ECMAScript 2023, together with `constructor` and
      `__proto__`. The cache is an array, so reading one of these names from
      it finds a truthy inherited value. */
  const ArrayMembers: set<string> := {
    "at", "concat", "copyWithin", "entries", "every", "fill", "filter", "find", "findIndex",
    "findLast", "findLastIndex", "flat", "flatMap", "forEach", "includes", "indexOf", "join",
    "keys", "lastIndexOf", "map", "pop", "push", "reduce", "reduceRight", "reverse", "shift",
    "slice", "some", "sort", "splice", "toLocaleString", "toReversed", "toSorted", "toSpliced",
    "toString", "unshift", "values", "with", "constructor", "hasOwnProperty", "isPrototypeOf",
    "propertyIsEnumerable", "valueOf", "__proto__", "__defineGetter__", "__defineSetter__",
    "__lookupGetter__", "__lookupSetter__"
  }

  /** A name the cache has no entry of its own for, but inherits a member
      under: the lookup returns that member, which is no style name. */
  predicate InheritedHit(st: ResolverState, property: string)
  {
    property !in st.cache && property in st.inherited
  }

  /** The index of the first prefix under which `capitalized` is supported,
      or the number of prefixes when there is none. */
  function FirstSupported(prefixes: seq<string>, capitalized: string, supported: set<string>): (i: nat)
    ensures i <= |prefixes|
    ensures i < |prefixes| ==> prefixes[i] + capitalized in supported
    ensures forall j :: 0 <= j < i ==> prefixes[j] + capitalized !in supported
  {
    if prefixes == [] then 0
    else if prefixes[0] + capitalized in supported then 0
    else 1 + FirstSupported(prefixes[1..], capitalized, supported)
  }

  /** `vendorPrefix.get`, as a function of the resolver's state. */
  function Lookup(st: ResolverState, supported: set<string>, property: string): (r: Resolution)
    ensures CachedHit(st.cache, property) ==> r == Resolution(st.cache[property], st)
    ensures InheritedHit(st, property) ==> r == Resolution(None, st)
    ensures !CachedHit(st.cache, property) && !InheritedHit(st, property) ==>
      r.state.cache == st.cache[property := r.name]
  {
    if CachedHit(st.cache, property) then Resolution(st.cache[property], st)
    else if InheritedHit(st, property) then Resolution(None, st)
    else
      var capitalized := Capitalize(property);
      var found :=
        if property in supported then Resolution(Some(property), st)
        else if '-' in property && ToCamelCase(property) in supported then Resolution(Some(property), st)
        else
          var i := FirstSupported(st.prefixes, capitalized, supported);
          if i == |st.prefixes| then Resolution(None, st)
          else
            var narrowed := if |st.prefixes| > 1 then [st.prefixes[i]] else st.prefixes;
            Resolution(Some(st.prefixes[i] + capitalized), st.(prefixes := narrowed));
      Resolution(found.name, found.state.(cache := st.cache[property := found.name]))
  }

  /** The resolution order: the name as written, then the hyphenated name
      whose camel form is supported, then the first supported prefixed
      name; a prefixed hit among several prefixes narrows them to that
      one. */
  lemma LookupOrder(st: ResolverState, supported: set<string>, property: string)
    requires !CachedHit(st.cache, property) && !InheritedHit(st, property)
    ensures property in supported ==>
      Lookup(st, supported, property).name == Some(property)
    ensures property !in supported && '-' in property && ToCamelCase(property) in supported ==>
      Lookup(st, supported, property).name == Some(property)
    ensures property !in supported && ('-' !in property || ToCamelCase(property) !in supported) ==>
      var r := Lookup(st, supported, property);
      var cap := Capitalize(property);
      (r.name.Some? <==> exists p :: p in st.prefixes && p + cap in supported) &&
      (r.name.Some? ==>
         exists i :: 0 <= i < |st.prefixes| && r.name == Some(st.prefixes[i] + cap) &&
           (forall j :: 0 <= j < i ==> st.prefixes[j] + cap !in supported) &&
           r.state.prefixes == (if |st.prefixes| > 1 then [st.prefixes[i]] else st.prefixes)) &&
      (r.name.None? ==> r.state.prefixes == st.prefixes)
  {
    var cap := Capitalize(property);
    var i := FirstSupported(st.prefixes, cap, supported);
    if i < |st.prefixes| {
      assert st.prefixes[i] in st.prefixes;
    }
  }

  /** A name the resolver returns is one the engine supports, or the name as
      written when its camel form is supported. */
  lemma ResolvedNameSupported(st: ResolverState, supported: set<string>, property: string)
    requires forall q :: q in st.cache && st.cache[q].Some? ==>
      st.cache[q].value in supported || ToCamelCase(q) in supported
    ensures var r := Lookup(st, supported, property);
      r.name.Some? ==> r.name.value in supported || ToCamelCase(property) in supported
  {
  }

  /** The prefix list only ever shrinks, and a narrowed list keeps the
      prefix that just succeeded. */
  lemma PrefixesNarrow(st: ResolverState, supported: set<string>, property: string)
    ensures var r := Lookup(st, supported, property);
      (forall p :: p in r.state.prefixes ==> p in st.prefixes) &&
      (r.state.prefixes != st.prefixes ==>
        |r.state.prefixes| == 1 && r.name == Some(r.state.prefixes[0] + Capitalize(property)))
  {
    var cap := Capitalize(property);
    var i := FirstSupported(st.prefixes, cap, supported);
    if i < |st.prefixes| {
      assert st.prefixes[i] in st.prefixes;
    }
  }

  /** A truthy answer is cached: asking again returns the same name and
      changes nothing. */
  lemma LookupCached(st: ResolverState, supported: set<string>, property: string)
    requires var r := Lookup(st, supported, property); r.name.Some? && r.name.value != ""
    ensures var r := Lookup(st, supported, property);
      Lookup(r.state, supported, property) == r
  {
  }

  /** `filter` and `fill` are style names and array methods: until the
      cache holds an entry of its own for them, which it never comes to
      hold, they resolve to no name even where the engine supports them. */
  lemma InheritedNamesUnresolved(supported: set<string>)
    ensures Lookup(ResolverState(BrowserPrefixes, map[], ArrayMembers), supported, "filter").name == None
    ensures Lookup(ResolverState(BrowserPrefixes, map[], ArrayMembers), supported, "fill").name == None
  {
  }

  /** An inherited hit leaves the cache as it was, so the next lookup of
      that name hits again. */
  lemma InheritedHitPersists(st: ResolverState, supported: set<string>, property: string)
    requires InheritedHit(st, property)
    ensures var r := Lookup(st, supported, property);
      r.name == None && InheritedHit(r.state, property) && r.state == st
  {
  }

  /** The resolver singleton (`vendorPrefix`). */
  class Resolver {
    var browserPrefix: seq<string>
    var cache: map<string, Option<string>>
    /** The style names the running engine recognises. */
    const supported: set<string>
    /** The names under which the running engine's arrays inherit a member
        (`ArrayMembers` in ECMAScript 2023). */
    const inherited: set<string>

    function Model(): ResolverState
      reads this
    {
      ResolverState(browserPrefix, cache, inherited)
    }

    constructor (supported: set<string>, inherited: set<string>)
      ensures Model() == ResolverState(BrowserPrefixes, map[], inherited)
      ensures this.supported == supported
    {
      browserPrefix := BrowserPrefixes;
      cache := map[];
      this.supported := supported;
      this.inherited := inherited;
    }

    /** `vendorPrefix.get`. */
    method Get(property: string) returns (r: Option<string>)
      modifies this
      ensures Resolution(r, Model()) == Lookup(old(Model()), supported, property)
    {
      if property in cache && cache[property].Some? && cache[property].value != "" {
        return cache[property];
      }
      if property !in cache && property in inherited {
        // the truthy member the cache array inherits
        return None;
      }
      var capitalize := Capitalize(property);
      var found: Option<string> := None;
      if property in supported {
        found := Some(property);
      } else {
        var camelCase: Option<string> := None;
        if '-' in property {
          camelCase := Some(ToCamelCase(property));
        }
        if camelCase.Some? && camelCase.value in supported {
          found := Some(property);
        } else {
          var i := 0;
          while i < |browserPrefix|
            invariant 0 <= i <= |browserPrefix|
            invariant browserPrefix == old(browserPrefix) && found == None
            invariant forall j :: 0 <= j < i ==> browserPrefix[j] + capitalize !in supported
          {
            var prefixed := browserPrefix[i] + capitalize;
            if prefixed in supported {
              found := Some(prefixed);
              assert i == FirstSupported(browserPrefix, capitalize, supported);
              if |browserPrefix| > 1 {
                browserPrefix := [browserPrefix[i]];
              }
              break;
            }
            i := i + 1;
          }
        }
      }
      cache := cache[property := found];
      r := found;
    }
  }
}
