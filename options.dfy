/** Frame options: the validation table applied when an option is set, the
    step that moves a frame's option keys into its `_options` object before
    the frame runs, and the normalisation of one property's input (a
    space-separated string or an array) into a transition record. A frame is
    a plain object: an insertion-ordered list of fields. */
module Options {
  import opened Js

  /** The key under which a frame keeps its resolved options. */
  const OptionsKey: string := "_options"

  /** The instance defaults (`defaultOptions`). */
  const DefaultDuration: Value := Str("1s")
  const DefaultDelay: Value := Num(0.0)
  const DefaultEasing: Value := Str("ease-out")

  /** The outcome of `_checkOption`: `false`, `null` or a replacement. */
  datatype Check = Reject | Keep | Fallback(v: Value)

  /** `_checkOption`. */
  function CheckOption(key: string, value: Value): (r: Check)
    ensures r == Reject <==> key == "callback" && !value.Fn?
    ensures key !in {"callback", "duration", "delay", "timing", "iterate"} ==> r == Keep
    ensures key in {"duration", "delay", "timing"} ==> (r == Keep <==> Truthy(value))
    ensures key == "iterate" ==> (r == Keep <==> value == Str("once") || value == Str("always"))
    ensures key == "duration" && r != Keep ==> r == Fallback(Str("1s"))
    ensures key == "delay" && r != Keep ==> r == Fallback(Num(0.0))
    ensures key == "timing" && r != Keep ==> r == Fallback(Str("easing"))
    ensures key == "iterate" && r != Keep ==> r == Fallback(Str("once"))
  {
    match key
    case "callback" => if Truthy(value) && value.Fn? then Keep else Reject
    case "duration" => if Truthy(value) then Keep else Fallback(Str("1s"))
    case "delay" => if Truthy(value) then Keep else Fallback(Num(0.0))
    case "timing" => if Truthy(value) then Keep else Fallback(Str("easing"))
    case "iterate" => if value == Str("once") || value == Str("always") then Keep else Fallback(Str("once"))
    case _ => Keep
  }

  /** The value `setOptions` stores for `key`, or None when it stores
      nothing. */
  function Stored(key: string, value: Value): Option<Value>
  {
    match CheckOption(key, value)
    case Reject => None
    case Keep => Some(value)
    case Fallback(v) => Some(v)
  }

  /** Storing a stored value again stores the same value: the table is
      idempotent. */
  lemma StoredIdempotent(key: string, value: Value)
    requires Stored(key, value).Some?
    ensures Stored(key, Stored(key, value).value) == Stored(key, value)
  {
  }

  /** What the table lets through: a stored callback is a function, a stored
      duration or timing is truthy and a stored iterate is `once` or
      `always`. */
  lemma StoredIsValid(key: string, value: Value)
    requires Stored(key, value).Some?
    ensures var v := Stored(key, value).value;
      (key == "callback" ==> v.Fn?) &&
      (key in {"duration", "timing"} ==> Truthy(v)) &&
      (key == "iterate" ==> v == Str("once") || v == Str("always"))
  {
  }

  /** A frame after `_getDefaultOptions`, with the options object it built. */
  datatype Defaults = Defaults(frame: seq<Field>, options: seq<Field>)

  /** Moves a truthy `frame[key]` into `options[key]`; otherwise fills a
      falsy `options[key]` with the instance default. */
  function MoveOrDefault(d: Defaults, key: string, default: Value): (r: Defaults)
    ensures Truthy(Get(d.frame, key)) ==>
      Get(r.options, key) == Get(d.frame, key) && Get(r.frame, key) == Undefined
    ensures !Truthy(Get(d.frame, key)) ==> (r.frame == d.frame &&
      Get(r.options, key) == if Truthy(Get(d.options, key)) then Get(d.options, key) else default)
  {
    var v := Get(d.frame, key);
    if Truthy(v) then Defaults(Delete(d.frame, key), Put(d.options, key, v))
    else if !Truthy(Get(d.options, key)) then Defaults(d.frame, Put(d.options, key, default))
    else d
  }

  lemma MoveOrDefaultOther(d: Defaults, key: string, default: Value, j: string)
    requires j != key
    ensures var r := MoveOrDefault(d, key, default);
      Get(r.frame, j) == Get(d.frame, j) && Get(r.options, j) == Get(d.options, j)
  {
    GetPut(d.options, key, Get(d.frame, key), j);
    GetPut(d.options, key, default, j);
    GetDelete(d.frame, key, j);
  }

  /** Whether writing a property to the value throws in strict code: it
      does for null and for the primitive values. */
  predicate RefusesWrites(v: Value)
  {
    v.Null? || v.Bool? || v.Num? || v.Str?
  }

  /** `_getDefaultOptions`. None when the frame's `_options` is null or a
      primitive value, where the first write to it throws before anything
      has changed. An undefined `_options` starts out empty, and so does an
      array or a function, neither of which has option properties of its
      own. */
  function DefaultOptions(frame: seq<Field>): (r: Option<Defaults>)
    ensures r.None? <==> RefusesWrites(Get(frame, OptionsKey))
    ensures r.Some? ==> Get(r.value.frame, OptionsKey) == Obj(r.value.options)
  {
    var o := Get(frame, OptionsKey);
    if RefusesWrites(o) then None
    else
      Some(Finish(TimingStep(CallbackStep(Defaults(frame, OptionsBefore(frame))))))
  }

  /** The earlier `_options` object of a frame, empty when there is none. */
  function OptionsBefore(frame: seq<Field>): seq<Field>
  {
    var o := Get(frame, OptionsKey);
    if o.Obj? then o.fields else []
  }

  /** The first step of `_getDefaultOptions`: a function callback moves. */
  function CallbackStep(d: Defaults): Defaults
  {
    var cb := Get(d.frame, "callback");
    if Truthy(cb) && cb.Fn? then Defaults(Delete(d.frame, "callback"), Put(d.options, "callback", cb)) else d
  }

  /** The middle steps: duration, delay and timing, in that order. */
  function TimingStep(d: Defaults): Defaults
  {
    MoveOrDefault(MoveOrDefault(MoveOrDefault(d, "duration", DefaultDuration), "delay", DefaultDelay), "timing", DefaultEasing)
  }

  /** The last step of `_getDefaultOptions`: `iterate` is normalised into
      the options and removed from the frame, which then holds the options
      object under `_options`. */
  function Finish(d: Defaults): (r: Defaults)
    ensures Get(r.frame, OptionsKey) == Obj(r.options)
    ensures Get(r.frame, "iterate") == Undefined
    ensures var it := Get(d.frame, "iterate");
      Get(r.options, "iterate") == if it == Str("once") || it == Str("always") then it else Str("once")
  {
    var it := Get(d.frame, "iterate");
    var options := Put(d.options, "iterate", if it == Str("once") || it == Str("always") then it else Str("once"));
    GetPut(Delete(d.frame, "iterate"), OptionsKey, Obj(options), "iterate");
    Defaults(Put(Delete(d.frame, "iterate"), OptionsKey, Obj(options)), options)
  }

  lemma FinishOther(d: Defaults, j: string)
    requires j != "iterate" && j != OptionsKey
    ensures Get(Finish(d).frame, j) == Get(d.frame, j) && Get(Finish(d).options, j) == Get(d.options, j)
  {
    var it := Get(d.frame, "iterate");
    var options := Put(d.options, "iterate", if it == Str("once") || it == Str("always") then it else Str("once"));
    GetPut(d.options, "iterate", if it == Str("once") || it == Str("always") then it else Str("once"), j);
    GetPut(Delete(d.frame, "iterate"), OptionsKey, Obj(options), j);
    GetDelete(d.frame, "iterate", j);
  }

  lemma CallbackStepOther(d: Defaults, j: string)
    requires j != "callback"
    ensures Get(CallbackStep(d).frame, j) == Get(d.frame, j) && Get(CallbackStep(d).options, j) == Get(d.options, j)
  {
    GetPut(d.options, "callback", Get(d.frame, "callback"), j);
    GetDelete(d.frame, "callback", j);
  }

  lemma TimingStepOther(d: Defaults, j: string)
    requires j !in {"duration", "delay", "timing"}
    ensures Get(TimingStep(d).frame, j) == Get(d.frame, j) && Get(TimingStep(d).options, j) == Get(d.options, j)
  {
    var d1 := MoveOrDefault(d, "duration", DefaultDuration);
    var d2 := MoveOrDefault(d1, "delay", DefaultDelay);
    MoveOrDefaultOther(d, "duration", DefaultDuration, j);
    MoveOrDefaultOther(d1, "delay", DefaultDelay, j);
    MoveOrDefaultOther(d2, "timing", DefaultEasing, j);
  }

  /** The option keys `_getDefaultOptions` looks at. */
  predicate IsOptionKey(k: string)
  {
    k in {"callback", "duration", "delay", "timing", "iterate", OptionsKey}
  }

  /** `_getDefaultOptions` leaves every key other than the option keys
      alone and always removes `iterate`, normalising it to `once` or
      `always` in `_options`. */
  lemma DefaultOptionsKeepsProperties(frame: seq<Field>, k: string)
    requires DefaultOptions(frame).Some?
    ensures var d := DefaultOptions(frame).value;
      && (!IsOptionKey(k) ==> Get(d.frame, k) == Get(frame, k))
      && Get(d.frame, "iterate") == Undefined
      && (Get(d.options, "iterate") == Str("once") || Get(d.options, "iterate") == Str("always"))
      && (Get(frame, "iterate") == Str("once") || Get(frame, "iterate") == Str("always") ==>
            Get(d.options, "iterate") == Get(frame, "iterate"))
  {
    var d0 := Defaults(frame, OptionsBefore(frame));
    var d1 := CallbackStep(d0);
    var d2 := TimingStep(d1);
    CallbackStepOther(d0, "iterate");
    TimingStepOther(d1, "iterate");
    if !IsOptionKey(k) {
      CallbackStepOther(d0, k);
      TimingStepOther(d1, k);
      FinishOther(d2, k);
    }
  }

  /** In `_getDefaultOptions` a function callback moves from the frame into
      `_options`; anything else under `callback` stays in the frame and
      `_options` keeps its earlier callback. */
  lemma DefaultOptionsMovesCallback(frame: seq<Field>)
    requires DefaultOptions(frame).Some?
    ensures var d := DefaultOptions(frame).value;
      var cb := Get(frame, "callback");
      && (cb.Fn? ==> Get(d.options, "callback") == cb && Get(d.frame, "callback") == Undefined)
      && (!cb.Fn? ==> Get(d.options, "callback") == Get(OptionsBefore(frame), "callback") &&
                      Get(d.frame, "callback") == cb)
  {
    var d0 := Defaults(frame, OptionsBefore(frame));
    var d1 := CallbackStep(d0);
    var d2 := TimingStep(d1);
    TimingStepOther(d1, "callback");
    FinishOther(d2, "callback");
  }

  /** The instance default of a timing option. */
  function DefaultFor(key: string): Value
  {
    if key == "duration" then DefaultDuration
    else if key == "delay" then DefaultDelay
    else DefaultEasing
  }

  /** In `_getDefaultOptions` a truthy duration, delay or timing moves from
      the frame into `_options`; a falsy one stays in the frame while
      `_options` keeps its earlier truthy value or takes the instance
      default. */
  lemma DefaultOptionsMovesTiming(frame: seq<Field>, key: string)
    requires DefaultOptions(frame).Some?
    requires key in {"duration", "delay", "timing"}
    ensures var d := DefaultOptions(frame).value;
      var v := Get(frame, key);
      var before := Get(OptionsBefore(frame), key);
      && (Truthy(v) ==> Get(d.options, key) == v && Get(d.frame, key) == Undefined)
      && (!Truthy(v) ==> (Get(d.frame, key) == v &&
            Get(d.options, key) == if Truthy(before) then before else DefaultFor(key)))
  {
    var d0 := Defaults(frame, OptionsBefore(frame));
    var d1 := CallbackStep(d0);
    CallbackStepOther(d0, key);
    var e1 := MoveOrDefault(d1, "duration", DefaultDuration);
    var e2 := MoveOrDefault(e1, "delay", DefaultDelay);
    var e3 := MoveOrDefault(e2, "timing", DefaultEasing);
    FinishOther(e3, key);
    if key == "duration" {
      MoveOrDefaultOther(e1, "delay", DefaultDelay, key);
      MoveOrDefaultOther(e2, "timing", DefaultEasing, key);
    } else if key == "delay" {
      MoveOrDefaultOther(d1, "duration", DefaultDuration, key);
      MoveOrDefaultOther(e2, "timing", DefaultEasing, key);
    } else {
      MoveOrDefaultOther(d1, "duration", DefaultDuration, key);
      MoveOrDefaultOther(e1, "delay", DefaultDelay, key);
    }
  }

  /** A later `_getDefaultOptions` on the same frame always finds a truthy
      duration and timing. */
  lemma DefaultOptionsComplete(frame: seq<Field>)
    requires DefaultOptions(frame).Some?
    ensures var o := DefaultOptions(frame).value.options;
      Truthy(Get(o, "duration")) && Truthy(Get(o, "timing"))
  {
    DefaultOptionsMovesTiming(frame, "duration");
    DefaultOptionsMovesTiming(frame, "timing");
  }

  /** The normalised input of one property (`_getTransitionObject`). */
  datatype TransitionObject = TransitionObject(value: Value, duration: Value, timing: Value, delay: Value)

  function StrAll(words: seq<string>): (r: seq<Value>)
    ensures |r| == |words|
    ensures forall i :: 0 <= i < |words| ==> r[i] == Str(words[i])
  {
    if words == [] then [] else [Str(words[0])] + StrAll(words[1..])
  }

  /** The positional entries of a property's input: the space-separated
      words of a string, the items of an array, nothing otherwise. */
  function Positional(property: Value): seq<Value>
  {
    match property
    case Str(s) => StrAll(Split(s, ' '))
    case List(items) => items
    case _ => []
  }

  function Slot(entries: seq<Value>, i: nat): Value
  {
    if i < |entries| then entries[i] else Undefined
  }

  /** A falsy slot takes the frame's option, then the instance default. */
  function Fill(slot: Value, data: seq<Field>, key: string, default: Value): Value
  {
    if Truthy(slot) then slot
    else if Truthy(Get(data, key)) then Get(data, key)
    else default
  }

  /** `_getTransitionObject`: entries fill `value, duration, timing, delay`
      in that order; the instance defaults know no `value` and no `timing`
      (they call it `easing`). */
  function GetTransitionObject(property: Value, data: seq<Field>): TransitionObject
  {
    var p := Positional(property);
    TransitionObject(
      Fill(Slot(p, 0), data, "value", Undefined),
      Fill(Slot(p, 1), data, "duration", DefaultDuration),
      Fill(Slot(p, 2), data, "timing", Undefined),
      Fill(Slot(p, 3), data, "delay", DefaultDelay))
  }

  /** Four non-empty space-free words joined by spaces come back slot by
      slot, whatever the options hold. */
  lemma TransitionObjectOfWords(words: seq<string>, data: seq<Field>)
    requires |words| == 4
    requires forall i :: 0 <= i < 4 ==> words[i] != "" && ' ' !in words[i]
    ensures GetTransitionObject(Str(Join(words, " ")), data) ==
      TransitionObject(Str(words[0]), Str(words[1]), Str(words[2]), Str(words[3]))
  {
    SplitJoin(words, ' ');
  }

  /** A slot the input leaves falsy takes the option, and the default when
      the option is falsy too; input beyond the fourth entry is ignored. */
  lemma TransitionObjectFallbacks(property: Value, data: seq<Field>)
    ensures var t := GetTransitionObject(property, data);
      var p := Positional(property);
      && Truthy(t.duration)
      && (forall i :: 0 <= i < 4 && i < |p| && Truthy(p[i]) ==>
            [t.value, t.duration, t.timing, t.delay][i] == p[i])
      && (!Truthy(Slot(p, 1)) && !Truthy(Get(data, "duration")) ==> t.duration == DefaultDuration)
      && (!Truthy(Slot(p, 3)) && !Truthy(Get(data, "delay")) ==> t.delay == DefaultDelay)
      && (!Truthy(Slot(p, 0)) ==> t.value == (if Truthy(Get(data, "value")) then Get(data, "value") else Undefined))
      && (!Truthy(Slot(p, 2)) ==> t.timing == (if Truthy(Get(data, "timing")) then Get(data, "timing") else Undefined))
  {
  }

  /** Array entries after the fourth play no part. */
  lemma ExtraEntriesIgnored(items: seq<Value>, extra: seq<Value>, data: seq<Field>)
    requires |items| >= 4
    ensures GetTransitionObject(List(items + extra), data) == GetTransitionObject(List(items), data)
  {
  }
}
