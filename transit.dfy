/** The frame sequencer of a `transit` object: a list of frames, a cursor
    over them, the per-frame list of properties whose transitions are still
    running, and the direction callbacks that fire when a run of frames
    ends. The DOM is replaced by two inputs: the first element's inline
    style (a map from property name to text) and the set of style names
    the engine supports. Each `transitionend` event becomes a call of
    `Complete(frameIndex, propertyName)`. A user function is an `Fn(id)`
    value, and calling it appends `id` to the `invoked` log. */
module Transit {
  import opened Js
  import Options
  import VendorPrefix

  /** `FLAGS.direction`: null, `play`, `forward` or `backward`. */
  datatype Direction = NoDirection | Play | Forward | Backward

  /** What a direction slot of `_callbacks` holds: a value the caller
      passed, or the continuation `function (o) { o.loop(false); }` that
      `loop` installs. */
  datatype Callback = Held(v: Value) | ResumeLoop

  /** The `limit` argument of `loop`: `false` keeps the current limit; an
      integer limit is `SetLimit(n)`, where an absent, null or zero limit
      is `SetLimit(0)`. */
  datatype LimitArg = KeepLimit | SetLimit(n: int)

  /** An element's inline style: property name to text. */
  type InlineStyle = map<string, string>

  /** A style without an `_options` entry, as every style the engine itself
      produces is. */
  predicate PlainStyle(style: InlineStyle)
  {
    Options.OptionsKey !in style
  }

  /** The four style names resolved before every transition starts. */
  const TransitionProperties: seq<string> :=
    ["transition-property", "transition-duration", "transition-timing-function", "transition-delay"]

  /** The state of one `transit` object, together with the shared resolver
      state. */
  datatype Sequencer = Sequencer(
    frames: seq<seq<Field>>,                  // `_frames`
    current: int,                             // `_currentIndex`
    last: Option<int>,                        // `_lastIndex`
    direction: Direction,                     // `FLAGS.direction`
    iterate: string,                          // `FLAGS.iterate`
    disableCallback: bool,                    // `FLAGS.disableCallback`
    speed: Value,                             // `FLAGS.speed`
    loopLimit: Option<int>,                   // `FLAGS.loopLimit`
    force: bool,                              // `FLAGS.force`
    playCallback: Callback,                   // `_callbacks.play`
    forwardCallback: Callback,                // `_callbacks.forward`
    backwardCallback: Callback,               // `_callbacks.backward`
    loopCallback: Value,                      // `_callbacks.loop`
    pending: map<int, seq<Option<string>>>,   // `_framesProperties`
    listening: set<int>,                      // frames with a `transitionend` listener
    loopCounter: int,                         // `_loopLimitCounter`
    invoked: seq<nat>,                        // user functions called, in order
    rs: VendorPrefix.ResolverState)           // the shared `vendorPrefix`

  /** The state the constructor sets up before applying its options. */
  function Initial(rs: VendorPrefix.ResolverState): Sequencer
  {
    Sequencer([], 0, None, NoDirection, "once", false, Num(1.0), None, false,
      Held(Undefined), Held(Undefined), Held(Undefined), Undefined, map[], {}, 0, [], rs)
  }

  predicate InRange(s: Sequencer, i: int)
  {
    0 <= i < |s.frames|
  }

  /** Nothing but the frames' contents, `_lastIndex`, the pending lists, the
      listeners and the resolver differs between `s` and `r`. */
  predicate SameControl(s: Sequencer, r: Sequencer)
  {
    |r.frames| == |s.frames| && r.current == s.current && r.direction == s.direction &&
    r.iterate == s.iterate && r.disableCallback == s.disableCallback && r.speed == s.speed &&
    r.loopLimit == s.loopLimit && r.force == s.force &&
    r.playCallback == s.playCallback && r.forwardCallback == s.forwardCallback &&
    r.backwardCallback == s.backwardCallback && r.loopCallback == s.loopCallback &&
    r.loopCounter == s.loopCounter && r.invoked == s.invoked
  }

  /** The frame count and the flags no playback call changes; a frame that
      has a pending list keeps one. */
  predicate SameFlags(s: Sequencer, r: Sequencer)
  {
    |r.frames| == |s.frames| && r.iterate == s.iterate && r.disableCallback == s.disableCallback &&
    r.speed == s.speed && r.force == s.force && s.pending.Keys <= r.pending.Keys
  }

  // ---------------------------------------------------------------------
  // _performTransition

  /** The value normalisation of `_performTransition`: text is lower-cased,
      a falsy value or a non-negative number is kept, and any other truthy
      value has no `toLowerCase`, so None (the call throws). */
  function Normalize(v: Value): (r: Option<Value>)
    ensures r.None? <==> Truthy(v) && !v.Str? && !(v.Num? && v.n > 0.0)
    ensures v.Str? ==> r == Some(Str(Lower(v.s)))
  {
    if !Truthy(v) then Some(v)
    else
      match v
      case Str(s) => Some(Str(Lower(s)))
      case Num(n) => if n > 0.0 then Some(v) else None
      case _ => None
  }

  /** A property whose normalised new value equals the element's present
      inline value (compared lower-cased) is dropped unless `force` is
      set. */
  predicate Unchanged(k: string, v: Value, style: InlineStyle, force: bool)
  {
    !force && k in style && style[k] != "" && v.Str? && v.s == Lower(style[k])
  }

  /** The frame after the unchanged-value filter, the keys left in the
      object of transitions (in frame order) and whether the loop ran to the
      end. */
  datatype Filtered = Filtered(frame: seq<Field>, kept: seq<string>, ok: bool)

  /** The loop of `_performTransition` over the keys `ks` of the frame. */
  function FilterFrame(frame: seq<Field>, ks: seq<string>, opts: seq<Field>, style: InlineStyle, force: bool): Filtered
    decreases |ks|
  {
    if ks == [] then Filtered(frame, [], true)
    else
      var k := ks[0];
      var n := Normalize(Options.GetTransitionObject(Get(frame, k), opts).value);
      if n.None? then Filtered(frame, [], false)
      else if Unchanged(k, n.value, style, force) then FilterFrame(Delete(frame, k), ks[1..], opts, style, force)
      else
        var rest := FilterFrame(frame, ks[1..], opts, style, force);
        Filtered(rest.frame, [k] + rest.kept, rest.ok)
  }

  /** `kept` put before the keys a filter kept. */
  function Prepend(kept: seq<string>, f: Filtered): Filtered
  {
    Filtered(f.frame, kept + f.kept, f.ok)
  }

  lemma PrependTwice(a: seq<string>, b: seq<string>, f: Filtered)
    ensures Prepend(a, Prepend(b, f)) == Prepend(a + b, f)
  {
    assert a + (b + f.kept) == (a + b) + f.kept;
  }

  /** One step of the filter, by the three cases of its first key. */
  lemma FilterStep(frame: seq<Field>, ks: seq<string>, opts: seq<Field>, style: InlineStyle, force: bool)
    requires ks != []
    ensures var n := Normalize(Options.GetTransitionObject(Get(frame, ks[0]), opts).value);
      FilterFrame(frame, ks, opts, style, force) ==
        if n.None? then Filtered(frame, [], false)
        else if Unchanged(ks[0], n.value, style, force) then FilterFrame(Delete(frame, ks[0]), ks[1..], opts, style, force)
        else Prepend([ks[0]], FilterFrame(frame, ks[1..], opts, style, force))
  {
  }

  /** The keys that start a transition, in frame order, without `_options`. */
  function WithoutOptions(ks: seq<string>): (r: seq<string>)
    ensures forall k :: k in r <==> k in ks && k != Options.OptionsKey
  {
    if ks == [] then []
    else (if ks[0] == Options.OptionsKey then [] else [ks[0]]) + WithoutOptions(ks[1..])
  }

  datatype Resolved = Resolved(names: seq<Option<string>>, state: VendorPrefix.ResolverState)

  /** `vendorPrefix.get` applied to each key in turn. */
  function ResolveKeys(rs: VendorPrefix.ResolverState, supported: set<string>, ks: seq<string>): (r: Resolved)
    ensures |r.names| == |ks|
    decreases |ks|
  {
    if ks == [] then Resolved([], rs)
    else
      var first := VendorPrefix.Lookup(rs, supported, ks[0]);
      var rest := ResolveKeys(first.state, supported, ks[1..]);
      Resolved([first.name] + rest.names, rest.state)
  }

  /** The key that `transitions[k]` reads for a resolved name `k`: the name
      itself, or the text `undefined` when there is none. */
  function ReadKey(name: Option<string>): string
  {
    if name.Some? then name.value else "undefined"
  }

  /** Whether `transitions[k].value` can be read for the resolved name `k`:
      the name must itself be one of the kept keys. */
  predicate Readable(name: Option<string>, kept: seq<string>)
  {
    ReadKey(name) in kept
  }

  datatype Pended = Pended(names: seq<Option<string>>, state: VendorPrefix.ResolverState, ok: bool)

  /** The loop that fills a frame's pending list: each key is resolved and
      its name pushed; reading `transitions[name]` for a name that is not a
      kept key throws, which ends the loop after that push. */
  function PendNames(rs: VendorPrefix.ResolverState, supported: set<string>, ks: seq<string>, kept: seq<string>): (r: Pended)
    ensures |r.names| <= |ks|
    decreases |ks|
  {
    if ks == [] then Pended([], rs, true)
    else
      var first := VendorPrefix.Lookup(rs, supported, ks[0]);
      if !Readable(first.name, kept) then Pended([first.name], first.state, false)
      else
        var rest := PendNames(first.state, supported, ks[1..], kept);
        Pended([first.name] + rest.names, rest.state, rest.ok)
  }

  /** The names already pushed, followed by what the rest of the loop
      pushes. */
  function Joined(names: seq<Option<string>>, p: Pended): Pended
  {
    Pended(names + p.names, p.state, p.ok)
  }

  /** One turn of the loop: resolve the next key and push its name, then
      stop if it cannot be read back. */
  lemma PendNamesStep(names: seq<Option<string>>, rs: VendorPrefix.ResolverState, supported: set<string>, ks: seq<string>, kept: seq<string>)
    requires ks != []
    ensures var first := VendorPrefix.Lookup(rs, supported, ks[0]);
      Joined(names, PendNames(rs, supported, ks, kept)) ==
        if Readable(first.name, kept) then Joined(names + [first.name], PendNames(first.state, supported, ks[1..], kept))
        else Pended(names + [first.name], first.state, false)
  {
    var first := VendorPrefix.Lookup(rs, supported, ks[0]);
    var rest := PendNames(first.state, supported, ks[1..], kept);
    assert names + ([first.name] + rest.names) == (names + [first.name]) + rest.names;
  }

  /** Whether every name of a list can be read back. */
  predicate AllReadable(names: seq<Option<string>>, kept: seq<string>)
  {
    forall j :: 0 <= j < |names| ==> Readable(names[j], kept)
  }

  /** A list with a name in front is readable when the name and the rest
      are. */
  lemma AllReadableCons(x: Option<string>, rest: seq<Option<string>>, kept: seq<string>)
    ensures AllReadable([x] + rest, kept) <==> Readable(x, kept) && AllReadable(rest, kept)
  {
    assert ([x] + rest)[0] == x;
    assert forall j :: 0 <= j < |rest| ==> ([x] + rest)[j + 1] == rest[j];
  }

  /** A loop that runs to the end pushes one readable name per key. */
  lemma {:induction false} PendNamesFinished(rs: VendorPrefix.ResolverState, supported: set<string>, ks: seq<string>, kept: seq<string>)
    ensures var r := PendNames(rs, supported, ks, kept);
      r.ok ==> |r.names| == |ks| && AllReadable(r.names, kept)
    decreases |ks|
  {
    if ks != [] {
      var first := VendorPrefix.Lookup(rs, supported, ks[0]);
      if Readable(first.name, kept) {
        var rest := PendNames(first.state, supported, ks[1..], kept);
        PendNamesFinished(first.state, supported, ks[1..], kept);
        AllReadableCons(first.name, rest.names, kept);
      }
    }
  }

  /** A loop that stops does so right after its first unreadable name. */
  lemma {:induction false} PendNamesStopped(rs: VendorPrefix.ResolverState, supported: set<string>, ks: seq<string>, kept: seq<string>)
    ensures var r := PendNames(rs, supported, ks, kept);
      !r.ok ==> 1 <= |r.names| && !Readable(r.names[|r.names| - 1], kept) &&
                AllReadable(r.names[..|r.names| - 1], kept)
    decreases |ks|
  {
    if ks != [] {
      var first := VendorPrefix.Lookup(rs, supported, ks[0]);
      if !Readable(first.name, kept) {
        assert PendNames(rs, supported, ks, kept).names == [first.name];
      } else {
        var rest := PendNames(first.state, supported, ks[1..], kept);
        var names := [first.name] + rest.names;
        assert PendNames(rs, supported, ks, kept) == Pended(names, rest.state, rest.ok);
        PendNamesStopped(first.state, supported, ks[1..], kept);
        if !rest.ok {
          var n := |rest.names|;
          assert names[n] == rest.names[n - 1];
          assert names[..n] == [first.name] + rest.names[..n - 1];
          AllReadableCons(first.name, rest.names[..n - 1], kept);
        }
      }
    }
  }

  /** The loop finishes exactly when every pushed name is readable; it then
      pushes one name per key, and otherwise it stops right after the first
      name that is not. */
  lemma PendNamesShape(rs: VendorPrefix.ResolverState, supported: set<string>, ks: seq<string>, kept: seq<string>)
    ensures var r := PendNames(rs, supported, ks, kept);
      && (r.ok <==> forall j :: 0 <= j < |r.names| ==> Readable(r.names[j], kept))
      && (r.ok ==> |r.names| == |ks|)
      && (!r.ok ==> 1 <= |r.names| && !Readable(r.names[|r.names| - 1], kept) &&
                    forall j :: 0 <= j < |r.names| - 1 ==> Readable(r.names[j], kept))
  {
    var r := PendNames(rs, supported, ks, kept);
    PendNamesFinished(rs, supported, ks, kept);
    PendNamesStopped(rs, supported, ks, kept);
    if !r.ok {
      var n := |r.names|;
      assert forall j :: 0 <= j < n - 1 ==> r.names[..n - 1][j] == r.names[j];
    }
  }

  /** Keys the engine supports as written, and that the cache holds no
      other truthy answer for, resolve to themselves: the loop runs to the
      end and pushes the keys themselves. */
  lemma {:induction false} PendNamesAsWritten(rs: VendorPrefix.ResolverState, supported: set<string>, ks: seq<string>, kept: seq<string>)
    requires forall k :: k in ks ==> k in kept && k in supported && k !in rs.inherited
    requires forall k :: k in ks && VendorPrefix.CachedHit(rs.cache, k) ==> rs.cache[k] == Some(k)
    ensures var r := PendNames(rs, supported, ks, kept);
      r.ok && |r.names| == |ks| && forall j :: 0 <= j < |ks| ==> r.names[j] == Some(ks[j])
    decreases |ks|
  {
    if ks != [] {
      assert ks[0] in ks;
      var first := VendorPrefix.Lookup(rs, supported, ks[0]);
      assert first.name == Some(ks[0]);
      assert forall k :: k in ks[1..] ==> k in ks;
      PendNamesAsWritten(first.state, supported, ks[1..], kept);
    }
  }

  /** A key the engine supports only under a prefix resolves to the
      prefixed name, which is no key of the frame: the loop stops there.
      `transform` on an engine that knows only `WebkitTransform` is such a
      key. */
  lemma PrefixedNameStalls(inherited: set<string>)
    requires "transform" !in inherited
    ensures var r := PendNames(VendorPrefix.ResolverState(["Webkit"], map[], inherited), {"WebkitTransform"},
                               ["transform"], ["transform", Options.OptionsKey]);
      !r.ok && r.names == [Some("WebkitTransform")]
  {
    var rs := VendorPrefix.ResolverState(["Webkit"], map[], inherited);
    assert Capitalize("transform") == "Transform";
    assert '-' !in "transform";
    assert "Webkit" + "Transform" == "WebkitTransform";
    assert VendorPrefix.FirstSupported(["Webkit"], "Transform", {"WebkitTransform"}) == 0;
    assert VendorPrefix.Lookup(rs, {"WebkitTransform"}, "transform").name == Some("WebkitTransform");
  }

  /** One turn of the resolving loop, after the names already resolved. */
  lemma ResolveKeysStep(names: seq<Option<string>>, rs: VendorPrefix.ResolverState, supported: set<string>, ks: seq<string>)
    requires ks != []
    ensures var first := VendorPrefix.Lookup(rs, supported, ks[0]);
      var all := ResolveKeys(rs, supported, ks);
      var rest := ResolveKeys(first.state, supported, ks[1..]);
      Resolved(names + all.names, all.state) == Resolved((names + [first.name]) + rest.names, rest.state)
  {
    var first := VendorPrefix.Lookup(rs, supported, ks[0]);
    var rest := ResolveKeys(first.state, supported, ks[1..]);
    assert names + ([first.name] + rest.names) == (names + [first.name]) + rest.names;
  }

  /** `_performTransition`. A missing frame changes nothing. Otherwise
      `_lastIndex` is recorded; an `_options` entry that cannot hold
      properties ends the call there; a value that cannot be normalised ends
      it after the frame has been partly filtered. When the filter leaves no
      entry at all, `_onTransitionEnd()` runs without a frame index and then
      the frame's own `callback` entry is called; `depth` bounds how often
      that can nest (at 0 the call stops before it). Otherwise the frame
      gets a fresh pending list, made of the resolved names of the kept keys
      other than `_options`, and a listener unless one of those names is no
      kept key. */
  function Perform(s: Sequencer, supported: set<string>, style: InlineStyle, depth: nat): (r: Sequencer)
    ensures SameFlags(s, r)
    ensures PlainStyle(style) ==>
      SameControl(s, r) && r.last == if InRange(s, s.current) then Some(s.current) else s.last
    decreases depth, 2
  {
    if !InRange(s, s.current) then s
    else PerformFrame(s.(last := Some(s.current)), supported, style, depth)
  }

  /** The part of `_performTransition` after `_lastIndex` is recorded. */
  function PerformFrame(s: Sequencer, supported: set<string>, style: InlineStyle, depth: nat): (r: Sequencer)
    requires InRange(s, s.current)
    ensures SameFlags(s, r)
    ensures PlainStyle(style) ==> SameControl(s, r) && r.last == s.last
    decreases depth, 1
  {
    var p := Prepared(s.frames[s.current], style, s.force);
    if p.None? then s
    else
      var s2 := s.(frames := s.frames[s.current := p.value.frame]);
      if !p.value.ok then s2
      else if p.value.kept == [] then NothingNew(s2, supported, style, depth)
      else Listen(s2, supported, p.value.kept)
  }

  /** The frame as `_getDefaultOptions` and the filter leave it, or None
      when its `_options` entry cannot hold properties. Against a plain
      style a filter that runs to the end keeps at least `_options`. */
  function Prepared(frame: seq<Field>, style: InlineStyle, force: bool): (p: Option<Filtered>)
    ensures p.None? <==> Options.DefaultOptions(frame).None?
    ensures PlainStyle(style) && p.Some? && p.value.ok ==> p.value.kept != []
  {
    var d := Options.DefaultOptions(frame);
    if d.None? then None
    else
      FilterKeepsOptionsKey(d.value.frame, Keys(d.value.frame), d.value.options, style, force);
      Some(FilterFrame(d.value.frame, Keys(d.value.frame), d.value.options, style, force))
  }

  /** The branch for a frame with no new value: `_onTransitionEnd()`, then
      the frame's `callback` entry. */
  function NothingNew(s: Sequencer, supported: set<string>, style: InlineStyle, depth: nat): (r: Sequencer)
    requires InRange(s, s.current)
    ensures SameFlags(s, r)
    decreases depth, 0
  {
    if depth == 0 then s
    else
      var t := OnTransitionEnd(s, supported, style, None, depth - 1);
      var cb := Get(t.frames[s.current], "callback");
      if Truthy(cb) && !t.disableCallback then Call(t, cb).state else t
  }

  /** The names pended for the kept keys, after the four transition
      styles were resolved. */
  function ListenNames(rs: VendorPrefix.ResolverState, supported: set<string>, kept: seq<string>): Pended
  {
    var styles := ResolveKeys(rs, supported, TransitionProperties);
    PendNames(styles.state, supported, WithoutOptions(kept), kept)
  }

  /** The frame's new pending list, the resolved names of the kept keys
      other than `_options` up to the first one that cannot be read back,
      and, when there is none such, its listener. */
  function Listen(s: Sequencer, supported: set<string>, kept: seq<string>): (r: Sequencer)
    requires InRange(s, s.current)
    ensures SameControl(s, r) && r.last == s.last && r.frames == s.frames
    ensures s.current in r.pending && |r.pending[s.current]| <= |WithoutOptions(kept)|
    ensures r.pending == s.pending[s.current := r.pending[s.current]]
    ensures r.listening == s.listening + {s.current} || r.listening == s.listening
  {
    var p := ListenNames(s.rs, supported, kept);
    var s1 := s.(pending := s.pending[s.current := p.names], rs := p.state);
    if p.ok then s1.(listening := s.listening + {s.current}) else s1
  }

  /** The frame listens exactly when every pended name can be read back,
      and then it pends one name per key that starts a transition; otherwise
      the list ends with the name that could not. */
  lemma ListenShape(s: Sequencer, supported: set<string>, kept: seq<string>)
    requires InRange(s, s.current)
    ensures var r := Listen(s, supported, kept);
      var p := ListenNames(s.rs, supported, kept);
      r.pending[s.current] == p.names &&
      (p.ok ==> r.listening == s.listening + {s.current} && |p.names| == |WithoutOptions(kept)|) &&
      (!p.ok ==> r.listening == s.listening && !Readable(p.names[|p.names| - 1], kept))
  {
    var styles := ResolveKeys(s.rs, supported, TransitionProperties);
    PendNamesShape(styles.state, supported, WithoutOptions(kept), kept);
  }

  // ---------------------------------------------------------------------
  // _transitPrivateCallback and _onTransitionEnd

  /** `list.indexOf(x)` for an `x` in the list. */
  function IndexOf<T(==)>(list: seq<T>, x: T): (i: nat)
    requires x in list
    ensures i < |list| && list[i] == x
    ensures forall j :: 0 <= j < i ==> list[j] != x
  {
    if list[0] == x then 0 else 1 + IndexOf(list[1..], x)
  }

  /** `list.splice(list.indexOf(x), 1)`. */
  function RemoveFirst<T(==)>(list: seq<T>, x: T): seq<T>
    requires x in list
  {
    var i := IndexOf(list, x);
    list[..i] + list[i + 1..]
  }

  datatype Called = Called(state: Sequencer, ok: bool)

  /** Calling a value: a function is logged; anything else throws. */
  function Call(s: Sequencer, cb: Value): Called
  {
    if cb.Fn? then Called(s.(invoked := s.invoked + [cb.id]), true) else Called(s, false)
  }

  /** The `_callbacks` slot a direction reads. */
  function SlotOf(s: Sequencer, d: Direction): Callback
  {
    match d
    case Backward => s.backwardCallback
    case Forward => s.forwardCallback
    case _ => s.playCallback
  }

  function WithSlot(s: Sequencer, d: Direction, cb: Callback): Sequencer
  {
    match d
    case Backward => s.(backwardCallback := cb)
    case Forward => s.(forwardCallback := cb)
    case _ => s.(playCallback := cb)
  }

  /** +1 for play and forward, -1 for backward. */
  function Step(d: Direction): int
  {
    if d == Backward then -1 else 1
  }

  /** Whether `_frames[frameIndex + direction]` exists. */
  predicate HasNext(s: Sequencer, frameIndex: Option<int>)
  {
    frameIndex.Some? && InRange(s, frameIndex.value + Step(s.direction))
  }

  /** `_onTransitionEnd(frameIndex)`; a call without an index (None) never
      finds a neighbouring frame. */
  function OnTransitionEnd(s: Sequencer, supported: set<string>, style: InlineStyle, frameIndex: Option<int>, depth: nat): (r: Sequencer)
    ensures SameFlags(s, r)
    decreases depth, 5
  {
    if s.direction == NoDirection then s
    else if HasNext(s, frameIndex) then
      Perform(s.(current := s.current + Step(s.direction)), supported, style, depth)
    else EndOfRun(s, supported, style, depth)
  }

  /** The end of a run: the direction's callback slot is called once and
      cleared; the loop continuation calls `loop(false)`. */
  function EndOfRun(s: Sequencer, supported: set<string>, style: InlineStyle, depth: nat): (r: Sequencer)
    ensures SameFlags(s, r)
    decreases depth, 4
  {
    match SlotOf(s, s.direction)
    case Held(v) =>
      if v.Fn? then WithSlot(s.(invoked := s.invoked + [v.id]), s.direction, Held(Null)) else s
    case ResumeLoop =>
      WithSlot(Loop(s, supported, style, KeepLimit, Undefined, depth), s.direction, Held(Null))
  }

  /** The frame callback a completion signal for frame `i` reads, or None
      when reading it throws (`_options` undefined or null). */
  function FrameCallback(s: Sequencer, i: int): Option<Value>
    requires InRange(s, i)
  {
    var opts := Get(s.frames[i], Options.OptionsKey);
    if opts.Undefined? || opts.Null? then None
    else if opts.Obj? then Some(Get(opts.fields, "callback"))
    else Some(Undefined)
  }

  /** Whether a `transitionend` signal for `property` is one frame `i` is
      waiting for. */
  predicate Matches(s: Sequencer, i: int, property: string)
  {
    i in s.listening && i in s.pending && InRange(s, i) &&
    FrameCallback(s, i).Some? && Some(property) in s.pending[i]
  }

  /** The `once` branch of the completion handler: when the signal emptied
      the pending list, `_onTransitionEnd` and then the frame callback. */
  function CompleteOnce(s1: Sequencer, supported: set<string>, style: InlineStyle, i: int, cb: Value, depth: nat): (c: Called)
    requires i in s1.pending
    ensures SameFlags(s1, c.state)
  {
    if s1.pending[i] == [] then
      var s2 := OnTransitionEnd(s1, supported, style, Some(i), depth);
      if Truthy(cb) && !s2.disableCallback then Call(s2, cb) else Called(s2, true)
    else Called(s1, true)
  }

  /** `_transitPrivateCallback`: the listener of frame `i` receiving a
      `transitionend` for `property`. */
  function Complete(s: Sequencer, supported: set<string>, style: InlineStyle, i: int, property: string, depth: nat): (r: Sequencer)
    ensures SameFlags(s, r)
  {
    if !Matches(s, i, property) then s
    else
      var cb := FrameCallback(s, i).value;
      var s1 := s.(pending := s.pending[i := RemoveFirst(s.pending[i], Some(property))]);
      var c :=
        if s.iterate == "once" then CompleteOnce(s1, supported, style, i, cb, depth)
        else if Truthy(cb) then Call(s1, cb)
        else Called(s1, true);
      if c.ok && i in c.state.pending && c.state.pending[i] == [] then
        c.state.(listening := c.state.listening - {i})
      else c.state
  }

  // ---------------------------------------------------------------------
  // play, forward, backward, loop

  /** `play(callback)`. */
  function PlayFrames(s: Sequencer, supported: set<string>, style: InlineStyle, cb: Value, depth: nat): Sequencer
  {
    Perform(PlayStart(s, cb), supported, style, depth)
  }

  /** What `play` sets before performing: the direction, the callback
      when one is given, and the cursor moves past a frame that was just
      performed when a next frame exists. */
  function PlayStart(s: Sequencer, cb: Value): Sequencer
  {
    SkipPerformed(s.(direction := Play, playCallback := if Truthy(cb) then Held(cb) else s.playCallback))
  }

  function SkipPerformed(s: Sequencer): Sequencer
  {
    if s.last == Some(s.current) && InRange(s, s.current + 1) then s.(current := s.current + 1) else s
  }

  /** What `forward` (+1) or `backward` (-1) sets before performing: the
      direction, the cursor and that direction's callback slot. */
  function Moved(s: Sequencer, d: Direction, cb: Callback): Sequencer
    requires d == Forward || d == Backward
  {
    WithSlot(s.(direction := d, current := s.current + Step(d)), d, cb)
  }

  /** `forward(callback)`. */
  function ForwardFrames(s: Sequencer, supported: set<string>, style: InlineStyle, cb: Callback, depth: nat): Sequencer
  {
    Perform(Moved(s, Forward, cb), supported, style, depth)
  }

  /** `backward(callback)`. */
  function BackwardFrames(s: Sequencer, supported: set<string>, style: InlineStyle, cb: Callback, depth: nat): Sequencer
  {
    Perform(Moved(s, Backward, cb), supported, style, depth)
  }

  /** `FLAGS.loopLimit` as a truthy test. */
  predicate Armed(limit: Option<int>)
  {
    limit.Some? && limit.value != 0
  }

  /** Whether the next `loop` call ends the loop. */
  predicate LoopFinished(s: Sequencer)
  {
    Armed(s.loopLimit) && s.loopLimit.value < s.loopCounter
  }

  function NewLimit(previous: Option<int>, limit: LimitArg): Option<int>
  {
    match limit
    case KeepLimit => previous
    case SetLimit(n) => if n != 0 then Some(2 * n) else None
  }

  /** The way `loop` moves: forward while the cursor is before the last
      frame, backward otherwise. */
  function LoopDirection(s: Sequencer): (d: Direction)
  {
    if s.current <= |s.frames| - 2 then Forward else Backward
  }

  /** The call that finds the loop finished: the limit and the counter are
      reset, and a function loop callback is called once and cleared. */
  function EndLoop(s: Sequencer): Sequencer
  {
    FireLoopCallback(s.(loopLimit := None, loopCounter := 0))
  }

  function FireLoopCallback(s: Sequencer): Sequencer
  {
    if s.loopCallback.Fn? then s.(invoked := s.invoked + [s.loopCallback.id], loopCallback := Bool(false)) else s
  }

  /** What a `loop` call that goes on sets first: the loop callback when
      one is given, and the limit. */
  function LoopStart(s: Sequencer, limit: LimitArg, cb: Value): Sequencer
  {
    s.(loopCallback := if Truthy(cb) then cb else s.loopCallback, loopLimit := NewLimit(s.loopLimit, limit))
  }

  /** `loop(limit, callback)`, where `forward` and `backward` get the
      continuation. */
  function Loop(s: Sequencer, supported: set<string>, style: InlineStyle, limit: LimitArg, cb: Value, depth: nat): (r: Sequencer)
    ensures SameFlags(s, r)
    decreases depth, 3
  {
    if |s.frames| == 1 then s
    else if LoopFinished(s) then EndLoop(s)
    else
      var s1 := LoopStart(s, limit, cb);
      CountRound(Perform(Moved(s1, LoopDirection(s1), ResumeLoop), supported, style, depth))
  }

  /** The end of a `loop` call that moved: a round is counted while a limit
      is set. */
  function CountRound(s: Sequencer): Sequencer
  {
    if Armed(s.loopLimit) then s.(loopCounter := s.loopCounter + 1) else s
  }

  // ---------------------------------------------------------------------
  // setOptions, createFrame, removeOption and the flags

  /** A state, and whether the call threw. */
  datatype Outcome = Outcome(state: Sequencer, threw: bool)

  /** The frame a call with an optional (or `0`) frame index addresses. */
  function Target(s: Sequencer, frame: Option<int>): int
  {
    if frame.None? || frame == Some(0) then s.current else frame.value
  }

  function EnsureFrame(s: Sequencer): Sequencer
  {
    if |s.frames| == 0 then s.(frames := [[]]) else s
  }

  /** `setOptions(key, value, frame)` for one key. */
  function SetOption(s: Sequencer, key: string, value: Value, frame: Option<int>): Outcome
  {
    var s1 := EnsureFrame(s);
    var stored := Options.Stored(key, value);
    if stored.None? then Outcome(s1, false)
    else
      var f := Target(s1, frame);
      if !InRange(s1, f) then Outcome(s1, true)
      else Outcome(s1.(frames := s1.frames[f := Put(s1.frames[f], key, stored.value)]), false)
  }

  /** `setOptions(object, frame)`: each entry in order, up to the first that
      throws. */
  function SetOptions(s: Sequencer, pairs: seq<Field>, frame: Option<int>): Outcome
    decreases |pairs|
  {
    if pairs == [] then Outcome(s, false)
    else
      var o := SetOption(s, pairs[0].key, pairs[0].val, frame);
      if o.threw then o else SetOptions(o.state, pairs[1..], frame)
  }

  /** `createFrame(options)`: a new empty frame, then its options. Index 0
      is falsy, so the options of a first frame go to `_currentIndex`. */
  function CreateFrame(s: Sequencer, options: seq<Field>): Outcome
  {
    var index := |s.frames|;
    SetOptions(s.(frames := s.frames + [[]]), options, Some(index))
  }

  /** `removeOption(key, index)`: deletes a truthy entry. */
  function RemoveOption(s: Sequencer, key: string, index: Option<int>): Outcome
  {
    var f := Target(s, index);
    if !InRange(s, f) then Outcome(s, true)
    else if Truthy(Get(s.frames[f], key)) then Outcome(s.(frames := s.frames[f := Delete(s.frames[f], key)]), false)
    else Outcome(s, false)
  }

  /** `setSpeed(speed)`: a speed loosely equal to zero is ignored; any
      other value is stored as it is. */
  function SetSpeed(s: Sequencer, speed: Value): Sequencer
  {
    if LooseZero(speed) then s else s.(speed := speed)
  }

  /** `force(enable)`: `force(false)` writes through the undefined
      `this.Flags` and throws; any other argument sets the flag. */
  function Force(s: Sequencer, enable: Value): Outcome
  {
    if enable == Bool(false) then Outcome(s, true) else Outcome(s.(force := true), false)
  }

  /** The state after `new transit(selector, options)`. */
  function New(rs: VendorPrefix.ResolverState, options: seq<Field>): Sequencer
  {
    SetOptions(Initial(rs), options, None).state
  }

  // ---------------------------------------------------------------------
  // Properties of the completion handler

  /** Removing the first occurrence drops exactly one copy of `x` and keeps
      the order of the rest. */
  lemma RemoveFirstOne<T>(list: seq<T>, x: T)
    requires x in list
    ensures |RemoveFirst(list, x)| == |list| - 1
    ensures multiset(RemoveFirst(list, x)) == multiset(list) - multiset{x}
  {
    var i := IndexOf(list, x);
    assert list == list[..i] + [x] + list[i + 1..];
  }

  /** A signal frame `i` is not waiting for changes nothing. */
  lemma CompleteUnmatched(s: Sequencer, supported: set<string>, style: InlineStyle, i: int, property: string, depth: nat)
    requires !Matches(s, i, property)
    ensures Complete(s, supported, style, i, property, depth) == s
  {
  }

  /** In `once` mode a signal that leaves other properties pending only
      shrinks the list: no advance, no callback, the listener stays. */
  lemma CompleteOnceNotLast(s: Sequencer, supported: set<string>, style: InlineStyle, i: int, property: string, depth: nat)
    requires Matches(s, i, property) && s.iterate == "once" && |s.pending[i]| > 1
    ensures var r := Complete(s, supported, style, i, property, depth);
      r.pending == s.pending[i := RemoveFirst(s.pending[i], Some(property))] &&
      multiset(r.pending[i]) == multiset(s.pending[i]) - multiset{Some(property)} &&
      r.frames == s.frames && r.current == s.current && r.invoked == s.invoked &&
      r.listening == s.listening
  {
    RemoveFirstOne(s.pending[i], Some(property));
  }

  /** In `once` mode the signal that empties the list runs
      `_onTransitionEnd` and then the frame callback, unless callbacks are
      disabled; the listener goes when no new pending list replaced the
      empty one and the callback did not throw. */
  lemma CompleteOnceLast(s: Sequencer, supported: set<string>, style: InlineStyle, i: int, property: string, depth: nat)
    requires Matches(s, i, property) && s.iterate == "once" && |s.pending[i]| == 1
    ensures var r := Complete(s, supported, style, i, property, depth);
      var t := OnTransitionEnd(s.(pending := s.pending[i := []]), supported, style, Some(i), depth);
      var cb := FrameCallback(s, i).value;
      var threw := Truthy(cb) && !cb.Fn? && !s.disableCallback;
      r.frames == t.frames && r.current == t.current && r.pending == t.pending &&
      r.invoked == t.invoked + (if cb.Fn? && !s.disableCallback then [cb.id] else []) &&
      r.listening == (if !threw && t.pending[i] == [] then t.listening - {i} else t.listening)
  {
    var cb := FrameCallback(s, i).value;
    RemoveFirstOne(s.pending[i], Some(property));
    assert RemoveFirst(s.pending[i], Some(property)) == [];
    var s1 := s.(pending := s.pending[i := []]);
    var t := OnTransitionEnd(s1, supported, style, Some(i), depth);
    assert SameFlags(s1, t);
    var c := if Truthy(cb) && !t.disableCallback then Call(t, cb) else Called(t, true);
    var r := if c.ok && i in c.state.pending && c.state.pending[i] == [] then
        c.state.(listening := c.state.listening - {i})
      else c.state;
    assert Complete(s, supported, style, i, property, depth) == r;
  }

  /** In any other mode every matching signal calls the frame callback and
      nothing advances. */
  lemma CompleteEverySignal(s: Sequencer, supported: set<string>, style: InlineStyle, i: int, property: string, depth: nat)
    requires Matches(s, i, property) && s.iterate != "once"
    ensures var r := Complete(s, supported, style, i, property, depth);
      var cb := FrameCallback(s, i).value;
      var rest := RemoveFirst(s.pending[i], Some(property));
      r.pending == s.pending[i := rest] &&
      multiset(rest) == multiset(s.pending[i]) - multiset{Some(property)} &&
      r.frames == s.frames && r.current == s.current && r.direction == s.direction
  {
    var cb := FrameCallback(s, i).value;
    var rest := RemoveFirst(s.pending[i], Some(property));
    RemoveFirstOne(s.pending[i], Some(property));
    var c := if Truthy(cb) then Call(s.(pending := s.pending[i := rest]), cb) else Called(s.(pending := s.pending[i := rest]), true);
    assert c.state == s.(pending := s.pending[i := rest], invoked := c.state.invoked);
  }

  /** In that mode the callback is logged when it is a function, and the
      listener goes exactly when the list becomes empty
      and the callback did not throw. */
  lemma CompleteEverySignalDetaches(s: Sequencer, supported: set<string>, style: InlineStyle, i: int, property: string, depth: nat)
    requires Matches(s, i, property) && s.iterate != "once"
    ensures var r := Complete(s, supported, style, i, property, depth);
      var cb := FrameCallback(s, i).value;
      r.invoked == s.invoked + (if cb.Fn? then [cb.id] else []) &&
      (i !in r.listening <==> RemoveFirst(s.pending[i], Some(property)) == [] && !(Truthy(cb) && !cb.Fn?))
  {
  }

  // ---------------------------------------------------------------------
  // Properties of _onTransitionEnd

  /** A null direction changes no state. */
  lemma OnTransitionEndNoDirection(s: Sequencer, supported: set<string>, style: InlineStyle, i: Option<int>, depth: nat)
    requires s.direction == NoDirection
    ensures OnTransitionEnd(s, supported, style, i, depth) == s
  {
  }

  /** When the neighbouring frame exists the cursor moves by the step and
      that frame is performed; no callback runs. */
  lemma OnTransitionEndAdvances(s: Sequencer, supported: set<string>, style: InlineStyle, i: Option<int>, depth: nat)
    requires s.direction != NoDirection && HasNext(s, i) && PlainStyle(style)
    ensures var r := OnTransitionEnd(s, supported, style, i, depth);
      var c := s.current + Step(s.direction);
      r.current == c && r.direction == s.direction && r.invoked == s.invoked &&
      r.last == (if InRange(s, c) then Some(c) else s.last) &&
      SlotOf(r, s.direction) == SlotOf(s, s.direction)
  {
    var t := s.(current := s.current + Step(s.direction));
    var r := Perform(t, supported, style, depth);
    assert OnTransitionEnd(s, supported, style, i, depth) == r;
    assert SameControl(t, r);
  }

  /** At the end of the run a function in the direction's slot is called
      once and the slot becomes null; the cursor and frames stay. */
  lemma OnTransitionEndFires(s: Sequencer, supported: set<string>, style: InlineStyle, i: Option<int>, depth: nat)
    requires s.direction != NoDirection && !HasNext(s, i)
    requires SlotOf(s, s.direction).Held? && SlotOf(s, s.direction).v.Fn?
    ensures var r := OnTransitionEnd(s, supported, style, i, depth);
      r.invoked == s.invoked + [SlotOf(s, s.direction).v.id] &&
      SlotOf(r, s.direction) == Held(Null) &&
      r.frames == s.frames && r.current == s.current && r.pending == s.pending &&
      r.direction == s.direction
  {
  }

  /** Exactly once: a second end of the same run calls nothing more. */
  lemma OnTransitionEndFiresOnce(s: Sequencer, supported: set<string>, style: InlineStyle, i: Option<int>, depth: nat)
    requires s.direction != NoDirection && !HasNext(s, i)
    requires SlotOf(s, s.direction).Held? && SlotOf(s, s.direction).v.Fn?
    ensures var r := OnTransitionEnd(s, supported, style, i, depth);
      OnTransitionEnd(r, supported, style, i, depth) == r
  {
    var r := OnTransitionEnd(s, supported, style, i, depth);
    OnTransitionEndFires(s, supported, style, i, depth);
    assert r.direction == s.direction && |r.frames| == |s.frames|;
  }

  /** A slot holding anything but a function or the loop continuation is
      ignored. */
  lemma OnTransitionEndIgnoresNonFunction(s: Sequencer, supported: set<string>, style: InlineStyle, i: Option<int>, depth: nat)
    requires s.direction != NoDirection && !HasNext(s, i)
    requires SlotOf(s, s.direction).Held? && !SlotOf(s, s.direction).v.Fn?
    ensures OnTransitionEnd(s, supported, style, i, depth) == s
  {
  }

  // ---------------------------------------------------------------------
  // Cursor moves

  /** `play` raises the cursor by one only when it equals `_lastIndex` and a
      next frame exists; otherwise it stays. */
  lemma PlayMoves(s: Sequencer, supported: set<string>, style: InlineStyle, cb: Value, depth: nat)
    requires PlainStyle(style)
    ensures var r := PlayFrames(s, supported, style, cb, depth);
      r.current == s.current + (if s.last == Some(s.current) && InRange(s, s.current + 1) then 1 else 0) &&
      r.direction == Play &&
      r.playCallback == (if Truthy(cb) then Held(cb) else s.playCallback) &&
      r.forwardCallback == s.forwardCallback && r.backwardCallback == s.backwardCallback
  {
  }

  /** `forward` moves the cursor by exactly +1, even past the last frame,
      and overwrites its callback slot. */
  lemma ForwardMoves(s: Sequencer, supported: set<string>, style: InlineStyle, cb: Callback, depth: nat)
    requires PlainStyle(style)
    ensures var r := ForwardFrames(s, supported, style, cb, depth);
      r.current == s.current + 1 && r.direction == Forward && r.forwardCallback == cb &&
      r.last == (if InRange(s, s.current + 1) then Some(s.current + 1) else s.last)
  {
  }

  /** `backward` moves the cursor by exactly -1, even before the first
      frame, and overwrites its callback slot. */
  lemma BackwardMoves(s: Sequencer, supported: set<string>, style: InlineStyle, cb: Callback, depth: nat)
    requires PlainStyle(style)
    ensures var r := BackwardFrames(s, supported, style, cb, depth);
      r.current == s.current - 1 && r.direction == Backward && r.backwardCallback == cb &&
      r.last == (if InRange(s, s.current - 1) then Some(s.current - 1) else s.last)
  {
    var t := Moved(s, Backward, cb);
    var r := Perform(t, supported, style, depth);
    assert SameControl(t, r);
  }

  // ---------------------------------------------------------------------
  // Properties of _performTransition

  /** Against a plain style the filter never removes `_options` from the
      frame. */
  lemma {:induction false} FilterKeepsOptions(frame: seq<Field>, ks: seq<string>, opts: seq<Field>, style: InlineStyle, force: bool)
    requires PlainStyle(style)
    ensures Get(FilterFrame(frame, ks, opts, style, force).frame, Options.OptionsKey) == Get(frame, Options.OptionsKey)
    ensures Options.OptionsKey in Keys(frame) ==> Options.OptionsKey in Keys(FilterFrame(frame, ks, opts, style, force).frame)
    decreases |ks|
  {
    if ks != [] {
      var k := ks[0];
      var n := Normalize(Options.GetTransitionObject(Get(frame, k), opts).value);
      if n.Some? && Unchanged(k, n.value, style, force) {
        GetDelete(frame, k, Options.OptionsKey);
        FilterKeepsOptions(Delete(frame, k), ks[1..], opts, style, force);
      } else if n.Some? {
        FilterKeepsOptions(frame, ks[1..], opts, style, force);
      }
    }
  }

  /** Against a plain style `_options` is never dropped, so a filter that
      runs to the end over a list holding it keeps it. */
  lemma {:induction false} FilterKeepsOptionsKey(frame: seq<Field>, ks: seq<string>, opts: seq<Field>, style: InlineStyle, force: bool)
    ensures var f := FilterFrame(frame, ks, opts, style, force);
      PlainStyle(style) && Options.OptionsKey in ks && f.ok ==> Options.OptionsKey in f.kept
    decreases |ks|
  {
    if ks != [] && ks[0] != Options.OptionsKey {
      var k := ks[0];
      var n := Normalize(Options.GetTransitionObject(Get(frame, k), opts).value);
      if n.Some? && Unchanged(k, n.value, style, force) {
        FilterKeepsOptionsKey(Delete(frame, k), ks[1..], opts, style, force);
      } else if n.Some? {
        FilterKeepsOptionsKey(frame, ks[1..], opts, style, force);
      }
    }
  }

  /** Every key the filter lets through is one of the keys it was given. */
  lemma {:induction false} FilterKeepsFrameKeys(frame: seq<Field>, ks: seq<string>, opts: seq<Field>, style: InlineStyle, force: bool)
    ensures var f := FilterFrame(frame, ks, opts, style, force);
      forall k :: k in f.kept ==> k in ks
    decreases |ks|
  {
    if ks != [] {
      var k := ks[0];
      var n := Normalize(Options.GetTransitionObject(Get(frame, k), opts).value);
      assert forall q :: q in ks[1..] ==> q in ks;
      if n.Some? && Unchanged(k, n.value, style, force) {
        FilterKeepsFrameKeys(Delete(frame, k), ks[1..], opts, style, force);
      } else if n.Some? {
        FilterKeepsFrameKeys(frame, ks[1..], opts, style, force);
      }
    }
  }

  /** With `force` set nothing is dropped: the frame stays as it is and, if
      no value throws, every key is kept. */
  lemma {:induction false} FilterForced(frame: seq<Field>, ks: seq<string>, opts: seq<Field>, style: InlineStyle)
    ensures var f := FilterFrame(frame, ks, opts, style, true);
      f.frame == frame && (f.ok ==> f.kept == ks)
    decreases |ks|
  {
    if ks != [] {
      FilterForced(frame, ks[1..], opts, style);
    }
  }

  /** A frame that does not exist changes nothing; one that does is always
      recorded as the last performed. */
  lemma PerformMissingFrame(s: Sequencer, supported: set<string>, style: InlineStyle, depth: nat)
    requires !InRange(s, s.current)
    ensures Perform(s, supported, style, depth) == s
  {
  }

  /** A perform that gets through the filter keeps the frame's `_options`
      object and gives the frame the pending names of its keys that start
      a transition. It listens on the frame exactly when every one of those
      names is a key of the filtered frame, and then there is one name per
      such key; otherwise the frame pends the names up to the first that is
      not and gets no listener. */
  lemma PerformListens(s: Sequencer, supported: set<string>, style: InlineStyle, depth: nat)
    requires InRange(s, s.current) && PlainStyle(style)
    requires var d := Options.DefaultOptions(s.frames[s.current]);
      d.Some? && FilterFrame(d.value.frame, Keys(d.value.frame), d.value.options, style, s.force).ok
    ensures var r := Perform(s, supported, style, depth);
      var d := Options.DefaultOptions(s.frames[s.current]).value;
      var f := FilterFrame(d.frame, Keys(d.frame), d.options, style, s.force);
      var p := ListenNames(s.rs, supported, f.kept);
      s.current in r.pending && r.pending[s.current] == p.names &&
      (p.ok ==> r.listening == s.listening + {s.current} && |r.pending[s.current]| == |WithoutOptions(f.kept)|) &&
      (!p.ok ==> r.listening == s.listening && !Readable(p.names[|p.names| - 1], f.kept)) &&
      (forall k :: k in WithoutOptions(f.kept) ==> k in Keys(d.frame) && k != Options.OptionsKey) &&
      Get(r.frames[s.current], Options.OptionsKey) == Obj(d.options) &&
      (s.force ==> f.kept == Keys(d.frame))
  {
    var d := Options.DefaultOptions(s.frames[s.current]).value;
    FilterKeepsOptionsKey(d.frame, Keys(d.frame), d.options, style, s.force);
    FilterKeepsOptions(d.frame, Keys(d.frame), d.options, style, s.force);
    FilterKeepsFrameKeys(d.frame, Keys(d.frame), d.options, style, s.force);
    if s.force {
      FilterForced(d.frame, Keys(d.frame), d.options, style);
    }
    var f := FilterFrame(d.frame, Keys(d.frame), d.options, style, s.force);
    var s1 := s.(last := Some(s.current));
    var s2 := s1.(frames := s.frames[s.current := f.frame]);
    assert Prepared(s1.frames[s1.current], style, s1.force) == Some(f);
    assert Perform(s, supported, style, depth) == Listen(s2, supported, f.kept);
    ListenShape(s2, supported, f.kept);
  }

  // ---------------------------------------------------------------------
  // Properties of loop

  /** With one frame `loop` does nothing. */
  lemma LoopSingleFrame(s: Sequencer, supported: set<string>, style: InlineStyle, limit: LimitArg, cb: Value, depth: nat)
    requires |s.frames| == 1
    ensures Loop(s, supported, style, limit, cb, depth) == s
  {
  }

  /** The first call after the counter passed the limit resets both, calls
      the loop callback once and moves nothing. */
  lemma LoopFinish(s: Sequencer, supported: set<string>, style: InlineStyle, limit: LimitArg, cb: Value, depth: nat)
    requires |s.frames| != 1 && LoopFinished(s)
    ensures var r := Loop(s, supported, style, limit, cb, depth);
      r.loopLimit == None && r.loopCounter == 0 &&
      r.current == s.current && r.frames == s.frames && r.pending == s.pending &&
      r.invoked == s.invoked + (if s.loopCallback.Fn? then [s.loopCallback.id] else []) &&
      r.loopCallback == (if s.loopCallback.Fn? then Bool(false) else s.loopCallback)
  {
  }

  /** Any other call sets the limit (twice a non-zero argument, null for a
      zero one, unchanged for `false`), moves one frame towards the far
      end and counts the call while a limit is set. */
  lemma LoopStep(s: Sequencer, supported: set<string>, style: InlineStyle, limit: LimitArg, cb: Value, depth: nat)
    requires |s.frames| != 1 && !LoopFinished(s) && PlainStyle(style)
    ensures var r := Loop(s, supported, style, limit, cb, depth);
      var forward := s.current <= |s.frames| - 2;
      r.loopLimit == (if limit.KeepLimit? then s.loopLimit else if limit.n != 0 then Some(2 * limit.n) else None) &&
      r.loopCounter == s.loopCounter + (if Armed(r.loopLimit) then 1 else 0) &&
      r.current == s.current + (if forward then 1 else -1) &&
      r.direction == (if forward then Forward else Backward) &&
      SlotOf(r, r.direction) == ResumeLoop &&
      r.loopCallback == (if Truthy(cb) then cb else s.loopCallback) &&
      r.invoked == s.invoked
  {
  }

  /** `k` calls of `loop(false)` in a row, as the continuation makes them. */
  function LoopCalls(s: Sequencer, supported: set<string>, style: InlineStyle, k: nat, depth: nat): Sequencer
  {
    if k == 0 then s else Loop(LoopCalls(s, supported, style, k - 1, depth), supported, style, KeepLimit, Undefined, depth)
  }

  /** While the counter has not passed the limit, each continuation call
      moves a frame and counts one. */
  lemma {:induction false} LoopCallsCount(s: Sequencer, supported: set<string>, style: InlineStyle, k: nat, depth: nat)
    requires |s.frames| >= 2 && PlainStyle(style) && s.loopLimit.Some? && s.loopLimit.value > 0
    requires 0 <= s.loopCounter && s.loopCounter + k <= s.loopLimit.value + 1
    ensures var r := LoopCalls(s, supported, style, k, depth);
      r.loopCounter == s.loopCounter + k && r.loopLimit == s.loopLimit && |r.frames| == |s.frames| &&
      r.invoked == s.invoked
  {
    if k > 0 {
      LoopCallsCount(s, supported, style, k - 1, depth);
      var p := LoopCalls(s, supported, style, k - 1, depth);
      LoopStep(p, supported, style, KeepLimit, Undefined, depth);
    }
  }

  /** `loop(n)` with n > 0, started on a fresh counter, moves a frame on
      the call itself and on the next 2n continuation calls, 2n + 1 moves
      in all; the continuation call after those finishes the loop. */
  lemma LoopLimitMoves(s: Sequencer, supported: set<string>, style: InlineStyle, n: int, cb: Value, depth: nat)
    requires |s.frames| >= 2 && n > 0 && PlainStyle(style) && s.loopCounter == 0 && !LoopFinished(s)
    ensures var first := Loop(s, supported, style, SetLimit(n), cb, depth);
      (forall j: nat :: j < 2 * n ==> !LoopFinished(LoopCalls(first, supported, style, j, depth))) &&
      LoopFinished(LoopCalls(first, supported, style, 2 * n, depth))
  {
    var first := Loop(s, supported, style, SetLimit(n), cb, depth);
    LoopStep(s, supported, style, SetLimit(n), cb, depth);
    forall j: nat | j < 2 * n
      ensures !LoopFinished(LoopCalls(first, supported, style, j, depth))
    {
      LoopCallsCount(first, supported, style, j, depth);
    }
    LoopCallsCount(first, supported, style, 2 * n, depth);
  }

  // ---------------------------------------------------------------------
  // Properties of setOptions, createFrame and removeOption

  /** A rejected value stores nothing; at most the first frame is
      created. */
  lemma SetOptionRejected(s: Sequencer, key: string, value: Value, frame: Option<int>)
    requires Options.CheckOption(key, value) == Options.Reject
    ensures SetOption(s, key, value, frame) == Outcome(EnsureFrame(s), false)
  {
  }

  /** An accepted value is stored (verbatim, or its replacement) under
      `key` of the addressed frame, where an omitted or zero frame means the
      current one; no other key and no other frame changes. */
  lemma SetOptionWrites(s: Sequencer, key: string, value: Value, frame: Option<int>, g: int, j: string)
    requires Options.CheckOption(key, value) != Options.Reject
    requires var f := if frame.None? || frame == Some(0) then s.current else frame.value;
      InRange(EnsureFrame(s), f)
    ensures var o := SetOption(s, key, value, frame);
      var f := if frame.None? || frame == Some(0) then s.current else frame.value;
      var base := EnsureFrame(s);
      !o.threw && |o.state.frames| == |base.frames| &&
      Get(o.state.frames[f], key) == (if Options.CheckOption(key, value).Keep? then value else Options.CheckOption(key, value).v) &&
      (j != key ==> Get(o.state.frames[f], j) == Get(base.frames[f], j)) &&
      (InRange(base, g) && g != f ==> o.state.frames[g] == base.frames[g]) &&
      o.state == base.(frames := o.state.frames)
  {
    var f := if frame.None? || frame == Some(0) then s.current else frame.value;
    var stored := Options.Stored(key, value).value;
    if j != key {
      GetPut(EnsureFrame(s).frames[f], key, stored, j);
    }
  }

  /** A frame index out of range throws and stores nothing. */
  lemma SetOptionMissingFrame(s: Sequencer, key: string, value: Value, frame: Option<int>)
    requires Options.CheckOption(key, value) != Options.Reject
    requires var f := if frame.None? || frame == Some(0) then s.current else frame.value;
      !InRange(EnsureFrame(s), f)
    ensures SetOption(s, key, value, frame) == Outcome(EnsureFrame(s), true)
  {
  }

  /** `setOptions` with an object writes only the addressed frame, and never
      throws when that frame exists. */
  lemma {:induction false} SetOptionsOneFrame(s: Sequencer, pairs: seq<Field>, frame: Option<int>, g: int)
    requires |s.frames| > 0 && InRange(s, Target(s, frame))
    ensures var o := SetOptions(s, pairs, frame);
      !o.threw && |o.state.frames| == |s.frames| && o.state == s.(frames := o.state.frames) &&
      (InRange(s, g) && g != Target(s, frame) ==> o.state.frames[g] == s.frames[g])
    decreases |pairs|
  {
    if pairs != [] {
      var o := SetOption(s, pairs[0].key, pairs[0].val, frame);
      SetOptionsOneFrame(o.state, pairs[1..], frame, g);
    }
  }

  /** Over an object's entries, whose keys are distinct, `setOptions`
      leaves under each key the value the table stores for it, and leaves a
      rejected key, or one the object does not hold, as it was. */
  lemma {:induction false} SetOptionsWritesKey(s: Sequencer, pairs: seq<Field>, frame: Option<int>, k: string)
    requires |s.frames| > 0 && InRange(s, Target(s, frame))
    requires forall i, j :: 0 <= i < j < |pairs| ==> pairs[i].key != pairs[j].key
    ensures var o := SetOptions(s, pairs, frame);
      var f := Target(s, frame);
      |o.state.frames| == |s.frames| &&
      (forall i :: 0 <= i < |pairs| && pairs[i].key == k ==>
        Get(o.state.frames[f], k) ==
          if Options.Stored(k, pairs[i].val).Some? then Options.Stored(k, pairs[i].val).value
          else Get(s.frames[f], k)) &&
      ((forall i :: 0 <= i < |pairs| ==> pairs[i].key != k) ==> Get(o.state.frames[f], k) == Get(s.frames[f], k))
    decreases |pairs|
  {
    SetOptionsOneFrame(s, pairs, frame, 0);
    if pairs != [] {
      var f := Target(s, frame);
      var o1 := SetOption(s, pairs[0].key, pairs[0].val, frame);
      if Options.Stored(pairs[0].key, pairs[0].val).Some? {
        SetOptionWrites(s, pairs[0].key, pairs[0].val, frame, f, k);
      }
      assert Target(o1.state, frame) == f && |o1.state.frames| == |s.frames|;
      var rest := pairs[1..];
      assert forall i, j :: 0 <= i < j < |rest| ==> rest[i].key != rest[j].key by {
        forall i, j | 0 <= i < j < |rest| ensures rest[i].key != rest[j].key {
          assert rest[i] == pairs[i + 1] && rest[j] == pairs[j + 1];
        }
      }
      SetOptionsWritesKey(o1.state, rest, frame, k);
      assert forall i :: 1 <= i < |pairs| ==> pairs[i] == rest[i - 1];
      if pairs[0].key == k {
        assert forall i :: 0 <= i < |rest| ==> rest[i].key != k by {
          forall i | 0 <= i < |rest| ensures rest[i].key != k {
            assert rest[i] == pairs[i + 1];
          }
        }
      }
    }
  }

  /** `createFrame` appends one frame and changes nothing but the frames;
      once a frame exists, the earlier frames stay as they were and the new
      one holds exactly what the table stores for each of the options: an
      accepted value, or its replacement, under its key, and nothing under
      a rejected key or any other. */
  lemma CreateFrameAppends(s: Sequencer, options: seq<Field>)
    requires |s.frames| > 0 || s.current == 0
    ensures var o := CreateFrame(s, options);
      !o.threw && |o.state.frames| == |s.frames| + 1 && o.state.frames[..|s.frames|] == s.frames &&
      o.state == s.(frames := o.state.frames) &&
      (options == [] ==> o.state.frames[|s.frames|] == [])
    ensures var o := CreateFrame(s, options);
      (forall i, j :: 0 <= i < j < |options| ==> options[i].key != options[j].key) ==>
        (forall i :: 0 <= i < |options| ==>
          Get(o.state.frames[|s.frames|], options[i].key) ==
            if Options.Stored(options[i].key, options[i].val).Some? then Options.Stored(options[i].key, options[i].val).value
            else Undefined) &&
        (forall k :: (forall i :: 0 <= i < |options| ==> options[i].key != k) ==>
          Get(o.state.frames[|s.frames|], k) == Undefined)
  {
    var s1 := s.(frames := s.frames + [[]]);
    var o := CreateFrame(s, options);
    SetOptionsOneFrame(s1, options, Some(|s.frames|), 0);
    if forall i, j :: 0 <= i < j < |options| ==> options[i].key != options[j].key {
      forall i | 0 <= i < |options|
        ensures Get(o.state.frames[|s.frames|], options[i].key) ==
          if Options.Stored(options[i].key, options[i].val).Some? then Options.Stored(options[i].key, options[i].val).value
          else Undefined
      {
        SetOptionsWritesKey(s1, options, Some(|s.frames|), options[i].key);
      }
      forall k | forall i :: 0 <= i < |options| ==> options[i].key != k
        ensures Get(o.state.frames[|s.frames|], k) == Undefined
      {
        SetOptionsWritesKey(s1, options, Some(|s.frames|), k);
      }
    }
    forall g | 0 <= g < |s.frames|
      ensures o.state.frames[g] == s.frames[g]
    {
      SetOptionsOneFrame(s1, options, Some(|s.frames|), g);
    }
    assert o.state.frames[..|s.frames|] == s.frames;
  }

  /** Entries sent to a frame that does not exist: the first one the table
      accepts throws, and until then nothing changes. */
  lemma {:induction false} SetOptionsMissingFrame(s: Sequencer, pairs: seq<Field>, frame: Option<int>)
    requires |s.frames| > 0 && !InRange(s, Target(s, frame))
    ensures SetOptions(s, pairs, frame) ==
      Outcome(s, exists i :: 0 <= i < |pairs| && Options.Stored(pairs[i].key, pairs[i].val).Some?)
    decreases |pairs|
  {
    if pairs != [] {
      SetOptionsMissingFrame(s, pairs[1..], frame);
      assert forall i :: 1 <= i < |pairs| ==> pairs[i] == pairs[1..][i - 1];
    }
  }

  /** The one `createFrame` the cursor cannot follow: on an object with no
      frames whose cursor has moved, the options go to `_currentIndex`
      (index 0 is falsy), which is not a frame, so the first accepted one
      throws and the new frame stays empty. */
  lemma CreateFrameStrayCursor(s: Sequencer, options: seq<Field>)
    requires |s.frames| == 0 && s.current != 0
    ensures CreateFrame(s, options) ==
      Outcome(s.(frames := [[]]), exists i :: 0 <= i < |options| && Options.Stored(options[i].key, options[i].val).Some?)
  {
    assert s.frames + [[]] == [[]];
    SetOptionsMissingFrame(s.(frames := [[]]), options, Some(0));
  }

  /** `removeOption` deletes a truthy entry and nothing else; a falsy one
      is left alone; a missing frame throws. */
  lemma RemoveOptionDeletes(s: Sequencer, key: string, index: Option<int>, j: string)
    ensures var o := RemoveOption(s, key, index);
      var f := if index.None? || index == Some(0) then s.current else index.value;
      (!InRange(s, f) <==> o.threw) && o.state == s.(frames := o.state.frames) &&
      (InRange(s, f) ==>
        |o.state.frames| == |s.frames| &&
        Get(o.state.frames[f], key) == (if Truthy(Get(s.frames[f], key)) then Undefined else Get(s.frames[f], key)) &&
        (j != key ==> Get(o.state.frames[f], j) == Get(s.frames[f], j)) &&
        (forall g :: 0 <= g < |s.frames| && g != f ==> o.state.frames[g] == s.frames[g]))
  {
    var f := if index.None? || index == Some(0) then s.current else index.value;
    if InRange(s, f) && j != key {
      GetDelete(s.frames[f], key, j);
    }
  }

  /** The stored speed is never loosely equal to zero: `setSpeed` keeps
      such a speed so, changes nothing else, and stores any other argument
      as it is. */
  lemma SetSpeedKeepsNonZero(s: Sequencer, speed: Value)
    requires !LooseZero(s.speed)
    ensures var r := SetSpeed(s, speed);
      !LooseZero(r.speed) && r == s.(speed := r.speed) &&
      (LooseZero(speed) ==> r == s) && (!LooseZero(speed) ==> r.speed == speed)
  {
  }

  /** A numeric speed stays a non-zero number under numeric arguments, so
      the duration arithmetic never divides by zero on that path. */
  lemma SetSpeedNumeric(s: Sequencer, speed: real)
    requires s.speed.Num? && s.speed.n != 0.0
    ensures var r := SetSpeed(s, Num(speed)); r.speed.Num? && r.speed.n != 0.0
  {
  }

  /** `setSpeed()` and `setSpeed(null)` are not ignored: undefined and null
      are not loosely equal to zero, so they are stored, and the duration
      arithmetic later divides by them. */
  lemma SetSpeedStoresNull(s: Sequencer)
    ensures SetSpeed(s, Null).speed == Null && SetSpeed(s, Undefined).speed == Undefined
  {
  }

  /** `force(false)` throws on the undefined `this.Flags` and changes
      nothing; any other argument turns `force` on; no other field changes,
      and `force` is never turned off. */
  lemma ForceOnlyEnables(s: Sequencer, enable: Value)
    ensures var o := Force(s, enable);
      (o.threw <==> enable == Bool(false)) && o.state == s.(force := o.state.force) &&
      (o.threw ==> o.state == s) && (!o.threw ==> o.state.force) && (s.force ==> o.state.force)
  {
  }

  /** Without a frame index, `setOptions` writes to `_currentIndex`, as
      it does for the falsy index 0. */
  lemma {:induction false} SetOptionsNoIndex(s: Sequencer, pairs: seq<Field>)
    ensures SetOptions(s, pairs, None) == SetOptions(s, pairs, Some(0))
    decreases |pairs|
  {
    if pairs != [] {
      var o := SetOption(s, pairs[0].key, pairs[0].val, None);
      assert o == SetOption(s, pairs[0].key, pairs[0].val, Some(0));
      if !o.threw {
        SetOptionsNoIndex(o.state, pairs[1..]);
      }
    }
  }

  /** The constructor's `setOptions(options)` does what `createFrame(options)`
      does on the fresh object: the first entry creates frame 0, the
      cursor, and all entries go there. */
  lemma NewIsCreateFrame(rs: VendorPrefix.ResolverState, options: seq<Field>)
    requires options != []
    ensures New(rs, options) == CreateFrame(Initial(rs), options).state
  {
    var s0 := Initial(rs);
    var s1 := s0.(frames := s0.frames + [[]]);
    assert s0.frames + [[]] == [[]];
    assert EnsureFrame(s0) == EnsureFrame(s1);
    SetOptionsNoIndex(s0, options);
    SetOptionsNoIndex(s1, options);
    assert SetOptions(s0, options, None) == SetOptions(s1, options, None);
  }

  /** A new object has its options in frame 0, which is current: each
      accepted option, or its replacement, under its key, and nothing under
      a rejected key or any other. */
  lemma NewHasOneFrame(rs: VendorPrefix.ResolverState, options: seq<Field>)
    requires options != []
    ensures var s := New(rs, options);
      |s.frames| == 1 && s.current == 0 && s.last == None && s.direction == NoDirection &&
      s.iterate == "once" && s.speed == Num(1.0) && s.pending == map[] && s.listening == {}
    ensures var s := New(rs, options);
      (forall i, j :: 0 <= i < j < |options| ==> options[i].key != options[j].key) ==>
        (forall i :: 0 <= i < |options| ==>
          Get(s.frames[0], options[i].key) ==
            if Options.Stored(options[i].key, options[i].val).Some? then Options.Stored(options[i].key, options[i].val).value
            else Undefined) &&
        (forall k :: (forall i :: 0 <= i < |options| ==> options[i].key != k) ==>
          Get(s.frames[0], k) == Undefined)
  {
    NewIsCreateFrame(rs, options);
    CreateFrameAppends(Initial(rs), options);
  }
}
