/** The `transit` object itself: its flags, cursor, frames, pending lists
    and callback slots are fields that its methods update in place. Every
    method is proved to leave the object in the state the corresponding
    function of module `Transit` computes from the state before the call,
    so the properties proved there hold of the object. The element's inline
    style is a parameter of the methods that read it, and the engine's
    supported style names are those of the shared resolver. */
module TransitObject {
  import opened Js
  import Options
  import VendorPrefix
  import Spec = Transit

  /** A `loop` call that neither returns at once nor finishes the loop is
      its move, counted. */
  lemma LoopGoesOn(s: Spec.Sequencer, supported: set<string>, style: Spec.InlineStyle, limit: Spec.LimitArg, cb: Value, depth: nat)
    requires |s.frames| != 1 && !Spec.LoopFinished(s)
    ensures var s1 := Spec.LoopStart(s, limit, cb);
      Spec.Loop(s, supported, style, limit, cb, depth) ==
        Spec.CountRound(Spec.Perform(Spec.Moved(s1, Spec.LoopDirection(s1), Spec.ResumeLoop), supported, style, depth))
  {
  }

  /** `_getDefaultOptions` on a frame, then the filter over its keys. */
  method Prepare(frame: seq<Field>, style: Spec.InlineStyle, force: bool) returns (p: Option<Spec.Filtered>)
    ensures p == Spec.Prepared(frame, style, force)
  {
    var d := Options.DefaultOptions(frame);
    if d.None? {
      return None;
    }
    var f, kept, ok := FilterKeys(d.value.frame, d.value.options, style, force);
    p := Some(Spec.Filtered(f, kept, ok));
  }

  /** The loop of `_performTransition` over the keys of a frame: a value
      equal to the element's present one is deleted from the frame, the
      others are kept; `ok` is false when a value cannot be normalised,
      which ends the loop. */
  method FilterKeys(frame0: seq<Field>, options: seq<Field>, style: Spec.InlineStyle, force: bool)
    returns (frame: seq<Field>, kept: seq<string>, ok: bool)
    ensures Spec.Filtered(frame, kept, ok) == Spec.FilterFrame(frame0, Keys(frame0), options, style, force)
  {
    frame := frame0;
    var ks := Keys(frame);
    kept := [];
    ok := true;
    var i := 0;
    while ok && i < |ks|
      invariant 0 <= i <= |ks|
      invariant Spec.FilterFrame(frame0, ks, options, style, force) ==
        if ok then Spec.Prepend(kept, Spec.FilterFrame(frame, ks[i..], options, style, force))
        else Spec.Filtered(frame, kept, false)
    {
      assert ks[i..] == [ks[i]] + ks[i + 1..];
      var stop;
      frame, kept, stop := FilterKey(frame, kept, ks[i], ks[i + 1..], options, style, force);
      ok := !stop;
      i := i + 1;
    }
    assert ok ==> kept + [] == kept;
  }

  /** One key of that loop; `rest` are the keys after it. */
  method FilterKey(frame0: seq<Field>, kept0: seq<string>, k: string, ghost rest: seq<string>,
                   options: seq<Field>, style: Spec.InlineStyle, force: bool)
    returns (frame: seq<Field>, kept: seq<string>, stop: bool)
    ensures Spec.Prepend(kept0, Spec.FilterFrame(frame0, [k] + rest, options, style, force)) ==
      if stop then Spec.Filtered(frame, kept, false) else Spec.Prepend(kept, Spec.FilterFrame(frame, rest, options, style, force))
  {
    Spec.FilterStep(frame0, [k] + rest, options, style, force);
    assert ([k] + rest)[0] == k && ([k] + rest)[1..] == rest;
    frame, kept, stop := frame0, kept0, false;
    var n := Spec.Normalize(Options.GetTransitionObject(Get(frame, k), options).value);
    if n.None? {
      assert kept + [] == kept;
      stop := true;
    } else if Spec.Unchanged(k, n.value, style, force) {
      frame := Delete(frame, k);
    } else {
      Spec.PrependTwice(kept, [k], Spec.FilterFrame(frame, rest, options, style, force));
      kept := kept + [k];
    }
  }

  class Transit {
    var frames: seq<seq<Field>>                          // `_frames`
    var currentIndex: int                                // `_currentIndex`
    var lastIndex: Option<int>                           // `_lastIndex`
    var direction: Spec.Direction                        // `FLAGS.direction`
    var iterate: string                                  // `FLAGS.iterate`
    var disableCallback: bool                            // `FLAGS.disableCallback`
    var speed: Value                                     // `FLAGS.speed`
    var loopLimit: Option<int>                           // `FLAGS.loopLimit`
    var force: bool                                      // `FLAGS.force`
    var playCallback: Spec.Callback                      // `_callbacks.play`
    var forwardCallback: Spec.Callback                   // `_callbacks.forward`
    var backwardCallback: Spec.Callback                  // `_callbacks.backward`
    var loopCallback: Value                              // `_callbacks.loop`
    var framesProperties: map<int, seq<Option<string>>>  // `_framesProperties`
    var listening: set<int>                              // frames with a listener
    var loopLimitCounter: int                            // `_loopLimitCounter`
    var invoked: seq<nat>                                // user functions called
    /** The shared `vendorPrefix` singleton. */
    const resolver: VendorPrefix.Resolver

    /** The object's state as a value of the specification. */
    function Model(): Spec.Sequencer
      reads this, resolver
    {
      Spec.Sequencer(frames, currentIndex, lastIndex, direction, iterate, disableCallback, speed,
        loopLimit, force, playCallback, forwardCallback, backwardCallback, loopCallback,
        framesProperties, listening, loopLimitCounter, invoked, resolver.Model())
    }

    /** `new transit(selector, options)` for a selector that matches. */
    constructor (resolver: VendorPrefix.Resolver, options: seq<Field>)
      ensures this.resolver == resolver
      ensures Model() == Spec.New(resolver.Model(), options)
    {
      frames := [];
      currentIndex := 0;
      lastIndex := None;
      direction := Spec.NoDirection;
      iterate := "once";
      disableCallback := false;
      speed := Num(1.0);
      loopLimit := None;
      force := false;
      playCallback := Spec.Held(Undefined);
      forwardCallback := Spec.Held(Undefined);
      backwardCallback := Spec.Held(Undefined);
      loopCallback := Undefined;
      framesProperties := map[];
      listening := {};
      loopLimitCounter := 0;
      invoked := [];
      this.resolver := resolver;
      new;
      var _ := SetOptions(options, None);
    }

    // -------------------------------------------------------------------
    // setOptions, createFrame, removeOption and the flags

    /** `setOptions(key, value, frame)`; `threw` when the addressed frame
        does not exist. */
    method SetOption(key: string, value: Value, frame: Option<int>) returns (threw: bool)
      modifies this
      ensures Spec.Outcome(Model(), threw) == Spec.SetOption(old(Model()), key, value, frame)
    {
      ghost var s1 := Spec.EnsureFrame(Model());
      ghost var r := Spec.SetOption(Model(), key, value, frame);
      if |frames| == 0 {
        frames := frames + [[]];  // `this.createFrame()`
      }
      assert Model() == s1;
      var f := if frame.None? || frame == Some(0) then currentIndex else frame.value;
      var stored := Options.Stored(key, value);
      if stored.None? {
        assert r == Spec.Outcome(s1, false);
        return false;
      }
      if !(0 <= f < |frames|) {
        assert r == Spec.Outcome(s1, true);
        return true;
      }
      frames := frames[f := Put(frames[f], key, stored.value)];
      assert r == Spec.Outcome(Model(), false);
      threw := false;
    }

    /** `setOptions(object, frame)`: the entries in order; an entry that
        throws ends the call. */
    method SetOptions(pairs: seq<Field>, frame: Option<int>) returns (threw: bool)
      modifies this
      ensures Spec.Outcome(Model(), threw) == Spec.SetOptions(old(Model()), pairs, frame)
    {
      var i := 0;
      while i < |pairs|
        invariant 0 <= i <= |pairs|
        invariant Spec.SetOptions(old(Model()), pairs, frame) == Spec.SetOptions(Model(), pairs[i..], frame)
      {
        assert pairs[i..][1..] == pairs[i + 1..];
        threw := SetOption(pairs[i].key, pairs[i].val, frame);
        if threw {
          return;
        }
        i := i + 1;
      }
      threw := false;
    }

    /** `callback(cb)`, a shortcut for `setOptions('callback', cb)`. */
    method Callback(cb: Value) returns (threw: bool)
      modifies this
      ensures Spec.Outcome(Model(), threw) == Spec.SetOption(old(Model()), "callback", cb, None)
    {
      threw := SetOption("callback", cb, None);
    }

    /** `createFrame(options)`. */
    method CreateFrame(options: seq<Field>) returns (threw: bool)
      modifies this
      ensures Spec.Outcome(Model(), threw) == Spec.CreateFrame(old(Model()), options)
    {
      var index := |frames|;
      frames := frames + [[]];
      threw := SetOptions(options, Some(index));
    }

    /** `removeOption(key, index)`. */
    method RemoveOption(key: string, index: Option<int>) returns (threw: bool)
      modifies this
      ensures Spec.Outcome(Model(), threw) == Spec.RemoveOption(old(Model()), key, index)
    {
      var f := if index.None? || index == Some(0) then currentIndex else index.value;
      if !(0 <= f < |frames|) {
        return true;
      }
      if Truthy(Get(frames[f], key)) {
        frames := frames[f := Delete(frames[f], key)];
      }
      threw := false;
    }

    /** `setSpeed(speed)`. */
    method SetSpeed(speed: Value)
      modifies this
      ensures Model() == Spec.SetSpeed(old(Model()), speed)
    {
      if !LooseZero(speed) {
        this.speed := speed;
      }
    }

    /** `force(enable)`. */
    method Force(enable: Value) returns (threw: bool)
      modifies this
      ensures Spec.Outcome(Model(), threw) == Spec.Force(old(Model()), enable)
    {
      if enable == Bool(false) {
        return true;  // `this.Flags` is undefined
      }
      force := true;
      threw := false;
    }

    /** `disableCallback()`. */
    method DisableCallback()
      modifies this
      ensures Model() == old(Model()).(disableCallback := true)
    {
      disableCallback := true;
    }

    /** `enableCallback()`. */
    method EnableCallback()
      modifies this
      ensures Model() == old(Model()).(disableCallback := false)
    {
      disableCallback := false;
    }

    // -------------------------------------------------------------------
    // _performTransition

    /** Calls a value: a function is logged; anything else throws. */
    method Call(cb: Value) returns (ok: bool)
      modifies this
      ensures Spec.Called(Model(), ok) == Spec.Call(old(Model()), cb)
    {
      if cb.Fn? {
        invoked := invoked + [cb.id];
        return true;
      }
      ok := false;
    }

    /** `_performTransition`. */
    method Perform(style: Spec.InlineStyle, depth: nat)
      modifies this, resolver
      ensures Model() == Spec.Perform(old(Model()), resolver.supported, style, depth)
      decreases depth, 3
    {
      if !(0 <= currentIndex < |frames|) {
        return;
      }
      lastIndex := Some(currentIndex);
      PerformFrame(style, depth);
    }

    /** `_performTransition` once `_lastIndex` is recorded. */
    method PerformFrame(style: Spec.InlineStyle, depth: nat)
      requires 0 <= currentIndex < |frames|
      modifies this, resolver
      ensures Model() == Spec.PerformFrame(old(Model()), resolver.supported, style, depth)
      decreases depth, 2
    {
      var p := Prepare(frames[currentIndex], style, force);
      if p.None? {
        return;
      }
      Dispatch(p.value, style, depth);
    }

    /** What `_performTransition` does once the frame is filtered: the
        filtered frame is written back; then nothing more happens when the
        loop stopped early, the no-new-value branch runs when no key is
        left, and otherwise the frame gets its listener. */
    method Dispatch(f: Spec.Filtered, style: Spec.InlineStyle, depth: nat)
      requires 0 <= currentIndex < |frames|
      modifies this, resolver
      ensures var s0 := old(Model()); var s2 := s0.(frames := s0.frames[s0.current := f.frame]);
        Model() ==
          if !f.ok then s2
          else if f.kept == [] then Spec.NothingNew(s2, resolver.supported, style, depth)
          else Spec.Listen(s2, resolver.supported, f.kept)
      decreases depth, 1
    {
      frames := frames[currentIndex := f.frame];
      if !f.ok {
        return;
      }
      if f.kept == [] {
        NothingNew(style, depth);
      } else {
        Listen(f.kept);
      }
    }

    /** The branch for a frame with no new value. */
    method NothingNew(style: Spec.InlineStyle, depth: nat)
      requires 0 <= currentIndex < |frames|
      modifies this, resolver
      ensures Model() == Spec.NothingNew(old(Model()), resolver.supported, style, depth)
      decreases depth, 0
    {
      if depth == 0 {
        return;
      }
      var index := currentIndex;
      OnTransitionEnd(style, None, depth - 1);
      var cb := Get(frames[index], "callback");
      if Truthy(cb) && !disableCallback {
        var _ := Call(cb);
      }
    }

    /** `vendorPrefix.get` of each name in turn. */
    method ResolveAll(ks: seq<string>) returns (names: seq<Option<string>>)
      modifies resolver
      ensures Spec.Resolved(names, resolver.Model()) == Spec.ResolveKeys(old(resolver.Model()), resolver.supported, ks)
    {
      names := [];
      var i := 0;
      while i < |ks|
        invariant 0 <= i <= |ks|
        invariant var rest := Spec.ResolveKeys(resolver.Model(), resolver.supported, ks[i..]);
          Spec.ResolveKeys(old(resolver.Model()), resolver.supported, ks) == Spec.Resolved(names + rest.names, rest.state)
      {
        assert ks[i..][0] == ks[i] && ks[i..][1..] == ks[i + 1..];
        Spec.ResolveKeysStep(names, resolver.Model(), resolver.supported, ks[i..]);
        var name := resolver.Get(ks[i]);
        names := names + [name];
        i := i + 1;
      }
      assert names + [] == names;
    }

    /** The loop of `_performTransition` over the kept keys `ks`: each is
        resolved and its name pushed, and reading `transitions[name]` throws,
        ending the loop, when the name is not one of the kept keys. `ok`
        says whether the loop ran to the end. */
    method PendAll(ks: seq<string>, kept: seq<string>) returns (names: seq<Option<string>>, ok: bool)
      modifies resolver
      ensures Spec.Pended(names, resolver.Model(), ok) == Spec.PendNames(old(resolver.Model()), resolver.supported, ks, kept)
    {
      names := [];
      ok := true;
      var i := 0;
      while ok && i < |ks|
        invariant 0 <= i <= |ks|
        invariant Spec.PendNames(old(resolver.Model()), resolver.supported, ks, kept) ==
          if ok then Spec.Joined(names, Spec.PendNames(resolver.Model(), resolver.supported, ks[i..], kept))
          else Spec.Pended(names, resolver.Model(), false)
      {
        assert ks[i..][0] == ks[i] && ks[i..][1..] == ks[i + 1..];
        Spec.PendNamesStep(names, resolver.Model(), resolver.supported, ks[i..], kept);
        var name := resolver.Get(ks[i]);
        names := names + [name];
        ok := Spec.Readable(name, kept);
        i := i + 1;
      }
      assert names + [] == names;
    }

    /** The frame's new pending list and its listener: the four transition
        styles are resolved (`_setTransitionStyle`), then the kept keys
        except `_options` are resolved and pushed in turn, and the listener
        is attached when that loop runs to the end. */
    method Listen(kept: seq<string>)
      requires 0 <= currentIndex < |frames|
      modifies this, resolver
      ensures Model() == Spec.Listen(old(Model()), resolver.supported, kept)
    {
      var _ := ResolveAll(Spec.TransitionProperties);
      var names, ok := PendAll(Spec.WithoutOptions(kept), kept);
      framesProperties := framesProperties[currentIndex := names];
      if ok {
        listening := listening + {currentIndex};
      }
    }

    // -------------------------------------------------------------------
    // _onTransitionEnd and _transitPrivateCallback

    /** Writes the callback slot of direction `d`. */
    method SetSlot(d: Spec.Direction, cb: Spec.Callback)
      modifies this
      ensures Model() == Spec.WithSlot(old(Model()), d, cb)
    {
      match d
      case Backward => backwardCallback := cb;
      case Forward => forwardCallback := cb;
      case _ => playCallback := cb;
    }

    /** `_onTransitionEnd(frameIndex)`. */
    method OnTransitionEnd(style: Spec.InlineStyle, frameIndex: Option<int>, depth: nat)
      modifies this, resolver
      ensures Model() == Spec.OnTransitionEnd(old(Model()), resolver.supported, style, frameIndex, depth)
      decreases depth, 9
    {
      if direction == Spec.NoDirection {
        return;  // 'invalid direction!'
      }
      var step := Spec.Step(direction);
      if frameIndex.Some? && 0 <= frameIndex.value + step < |frames| {
        currentIndex := currentIndex + step;
        Perform(style, depth);
      } else {
        EndOfRun(style, depth);
      }
    }

    /** The end of a run: the direction's slot is called and cleared. */
    method EndOfRun(style: Spec.InlineStyle, depth: nat)
      modifies this, resolver
      ensures Model() == Spec.EndOfRun(old(Model()), resolver.supported, style, depth)
      decreases depth, 8
    {
      var d := direction;
      var slot := match d
        case Backward => backwardCallback
        case Forward => forwardCallback
        case _ => playCallback;
      match slot
      case Held(v) =>
        if v.Fn? {
          invoked := invoked + [v.id];
          SetSlot(d, Spec.Held(Null));
        }
      case ResumeLoop =>
        Loop(style, Spec.KeepLimit, Undefined, depth);  // `o.loop(false)`
        SetSlot(d, Spec.Held(Null));
    }

    /** `_transitPrivateCallback`: the listener of frame `i` receiving a
        `transitionend` signal for `property`. */
    method Complete(style: Spec.InlineStyle, i: int, property: string, depth: nat)
      modifies this, resolver
      ensures Model() == Spec.Complete(old(Model()), resolver.supported, style, i, property, depth)
    {
      if !(i in listening && i in framesProperties && 0 <= i < |frames|) {
        return;
      }
      var opts := Get(frames[i], Options.OptionsKey);
      if opts.Undefined? || opts.Null? {
        return;  // reading `properties._options.callback` throws
      }
      var cb := if opts.Obj? then Get(opts.fields, "callback") else Undefined;
      if Some(property) !in framesProperties[i] {
        return;
      }
      Splice(i, property);
      var ok := Respond(style, i, cb, depth);
      Detach(i, ok);
    }

    /** `list.splice(list.indexOf(property), 1)` on frame `i`'s pending list. */
    method Splice(i: int, property: string)
      requires i in framesProperties && Some(property) in framesProperties[i]
      modifies this
      ensures Model() == old(Model()).(pending := old(framesProperties)[i := Spec.RemoveFirst(old(framesProperties)[i], Some(property))])
    {
      var list := framesProperties[i];
      var at := Spec.IndexOf(list, Some(property));
      framesProperties := framesProperties[i := list[..at] + list[at + 1..]];
    }

    /** The user-visible part of the completion handler; `ok` is false when
        calling the frame's callback threw. */
    method Respond(style: Spec.InlineStyle, i: int, cb: Value, depth: nat) returns (ok: bool)
      requires i in framesProperties
      modifies this, resolver
      ensures Spec.Called(Model(), ok) ==
        if old(iterate) == "once" then Spec.CompleteOnce(old(Model()), resolver.supported, style, i, cb, depth)
        else if Truthy(cb) then Spec.Call(old(Model()), cb)
        else Spec.Called(old(Model()), true)
    {
      if iterate == "once" {
        ok := CompleteOnce(style, i, cb, depth);
      } else if Truthy(cb) {
        ok := Call(cb);
      } else {
        ok := true;
      }
    }

    /** The `once` branch: when the signal emptied the pending list,
        `_onTransitionEnd` and then the frame callback. */
    method CompleteOnce(style: Spec.InlineStyle, i: int, cb: Value, depth: nat) returns (ok: bool)
      requires i in framesProperties
      modifies this, resolver
      ensures Spec.Called(Model(), ok) == Spec.CompleteOnce(old(Model()), resolver.supported, style, i, cb, depth)
    {
      ok := true;
      if framesProperties[i] == [] {
        OnTransitionEnd(style, Some(i), depth);
        if Truthy(cb) && !disableCallback {
          ok := Call(cb);
        }
      }
    }

    /** `elements.off('transitionend', …)` once frame `i` waits for nothing
        and its callback did not throw. */
    method Detach(i: int, ok: bool)
      modifies this
      ensures Model() ==
        if ok && i in old(framesProperties) && old(framesProperties)[i] == [] then old(Model()).(listening := old(listening) - {i})
        else old(Model())
    {
      if ok && i in framesProperties && framesProperties[i] == [] {
        listening := listening - {i};
      }
    }

    // -------------------------------------------------------------------
    // play, forward, backward, loop

    /** `play(callback)`. */
    method Play(style: Spec.InlineStyle, cb: Value, depth: nat)
      modifies this, resolver
      ensures Model() == Spec.PlayFrames(old(Model()), resolver.supported, style, cb, depth)
    {
      StartPlay(cb);
      Perform(style, depth);
    }

    /** The state changes of `play` before the frame is performed. */
    method StartPlay(cb: Value)
      modifies this
      ensures Model() == Spec.PlayStart(old(Model()), cb)
    {
      direction := Spec.Play;
      if Truthy(cb) {
        playCallback := Spec.Held(cb);
      }
      SkipPerformed();
    }

    /** The frame just performed is skipped when a next one exists. */
    method SkipPerformed()
      modifies this
      ensures Model() == Spec.SkipPerformed(old(Model()))
    {
      if lastIndex == Some(currentIndex) && 0 <= currentIndex + 1 < |frames| {
        currentIndex := currentIndex + 1;
      }
    }

    /** `forward(callback)`. */
    method Forward(style: Spec.InlineStyle, cb: Spec.Callback, depth: nat)
      modifies this, resolver
      ensures Model() == Spec.ForwardFrames(old(Model()), resolver.supported, style, cb, depth)
      decreases depth, 4
    {
      ghost var t := Spec.Moved(Model(), Spec.Forward, cb);
      direction := Spec.Forward;
      currentIndex := currentIndex + 1;
      forwardCallback := cb;
      assert Model() == t;
      Perform(style, depth);
    }

    /** `backward(callback)`. */
    method Backward(style: Spec.InlineStyle, cb: Spec.Callback, depth: nat)
      modifies this, resolver
      ensures Model() == Spec.BackwardFrames(old(Model()), resolver.supported, style, cb, depth)
      decreases depth, 4
    {
      ghost var t := Spec.Moved(Model(), Spec.Backward, cb);
      direction := Spec.Backward;
      currentIndex := currentIndex - 1;
      backwardCallback := cb;
      assert Model() == t;
      Perform(style, depth);
    }

    /** The move of a `loop` call: `forward` while the cursor is before the
        last frame, `backward` otherwise, each with the continuation. */
    method LoopMove(style: Spec.InlineStyle, depth: nat)
      modifies this, resolver
      ensures Model() == Spec.Perform(Spec.Moved(old(Model()), Spec.LoopDirection(old(Model())), Spec.ResumeLoop),
        resolver.supported, style, depth)
      decreases depth, 5
    {
      if currentIndex <= |frames| - 2 {
        Forward(style, Spec.ResumeLoop, depth);
      } else {
        Backward(style, Spec.ResumeLoop, depth);
      }
    }

    /** `loop(limit, callback)`. */
    method Loop(style: Spec.InlineStyle, limit: Spec.LimitArg, cb: Value, depth: nat)
      modifies this, resolver
      ensures Model() == Spec.Loop(old(Model()), resolver.supported, style, limit, cb, depth)
      decreases depth, 7
    {
      if |frames| == 1 {
        return;
      }
      if Spec.Armed(loopLimit) && loopLimit.value < loopLimitCounter {
        EndLoop();
        return;
      }
      LoopGoesOn(Model(), resolver.supported, style, limit, cb, depth);
      LoopOn(style, limit, cb, depth);
    }

    /** The loop is finished: the limit and the counter are reset and the
        loop callback is called. */
    method EndLoop()
      modifies this
      ensures Model() == Spec.EndLoop(old(Model()))
    {
      loopLimit := None;
      loopLimitCounter := 0;
      FireLoopCallback();
    }

    /** `this._callbacks.loop(this)` and then clearing it, when it is a
        function. */
    method FireLoopCallback()
      modifies this
      ensures Model() == Spec.FireLoopCallback(old(Model()))
    {
      if loopCallback.Fn? {
        invoked := invoked + [loopCallback.id];
        loopCallback := Bool(false);
      }
    }

    /** A `loop` call that goes on: the callback and the limit are set, the
        move is made, and the round is counted while a limit is set. */
    method LoopOn(style: Spec.InlineStyle, limit: Spec.LimitArg, cb: Value, depth: nat)
      modifies this, resolver
      ensures var s1 := Spec.LoopStart(old(Model()), limit, cb);
        Model() == Spec.CountRound(Spec.Perform(Spec.Moved(s1, Spec.LoopDirection(s1), Spec.ResumeLoop),
          resolver.supported, style, depth))
      decreases depth, 6
    {
      StartLoop(limit, cb);
      LoopMove(style, depth);
      CountRound();
    }

    /** The loop callback when one is given, and the limit
        (`limit * 2` moves, or none). */
    method StartLoop(limit: Spec.LimitArg, cb: Value)
      modifies this
      ensures Model() == Spec.LoopStart(old(Model()), limit, cb)
    {
      if Truthy(cb) {
        loopCallback := cb;
      }
      loopLimit := Spec.NewLimit(loopLimit, limit);
    }

    /** `if (this.FLAGS.loopLimit) this._loopLimitCounter++`. */
    method CountRound()
      modifies this
      ensures Model() == Spec.CountRound(old(Model()))
    {
      if Spec.Armed(loopLimit) {
        loopLimitCounter := loopLimitCounter + 1;
      }
    }
  }
}
