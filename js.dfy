/** JavaScript values and the few built-in operations on them that the
    transit library relies on: truthiness, property access on plain objects
    (which keep their keys in insertion order), `split`/`join` on strings and
    ASCII case conversion. */
module Js {

  datatype Option<+T> = None | Some(value: T)

  /** A JavaScript value, as far as the library tells values apart. */
  datatype Value =
    | Undefined
    | Null
    | Bool(b: bool)
    | Num(n: real)
    | Str(s: string)
    | Fn(id: nat)              // a function; `id` names it in an invocation log
    | List(items: seq<Value>)  // an array
    | Obj(fields: seq<Field>)  // a plain object, keys in insertion order

  datatype Field = Field(key: string, val: Value)

  /** JavaScript truthiness (NaN is not a value of this model). */
  predicate Truthy(v: Value)
  {
    match v
    case Undefined => false
    case Null => false
    case Bool(b) => b
    case Num(n) => n != 0.0
    case Str(s) => s != ""
    case _ => true
  }

  /** The keys of an object, in insertion order. */
  function Keys(fs: seq<Field>): (ks: seq<string>)
    ensures |ks| == |fs|
  {
    if fs == [] then [] else [fs[0].key] + Keys(fs[1..])
  }

  /** Property read `o[k]`; a missing key reads as undefined. */
  function Get(fs: seq<Field>, k: string): (v: Value)
    ensures k !in Keys(fs) ==> v == Undefined
  {
    if fs == [] then Undefined
    else if fs[0].key == k then fs[0].val
    else Get(fs[1..], k)
  }

  /** Property write `o[k] = v`: an existing key keeps its position, a new
      key is appended. */
  function Put(fs: seq<Field>, k: string, v: Value): (r: seq<Field>)
    ensures Get(r, k) == v
  {
    if fs == [] then [Field(k, v)]
    else if fs[0].key == k then [Field(k, v)] + fs[1..]
    else [fs[0]] + Put(fs[1..], k, v)
  }

  lemma {:induction false} PutKeys(fs: seq<Field>, k: string, v: Value)
    ensures Keys(Put(fs, k, v)) == if k in Keys(fs) then Keys(fs) else Keys(fs) + [k]
  {
    if fs != [] {
      var rest := Keys(fs[1..]);
      assert Keys(fs) == [fs[0].key] + rest;
      if fs[0].key != k {
        PutKeys(fs[1..], k, v);
        assert Keys(Put(fs, k, v)) == [fs[0].key] + Keys(Put(fs[1..], k, v));
        assert k in Keys(fs) <==> k in rest;
      } else {
        assert Keys(Put(fs, k, v)) == [k] + rest;
        assert k in Keys(fs);
      }
    }
  }

  /** `delete o[k]`; the order of the other keys is kept. */
  function Delete(fs: seq<Field>, k: string): (r: seq<Field>)
    ensures Get(r, k) == Undefined && k !in Keys(r)
  {
    if fs == [] then []
    else if fs[0].key == k then Delete(fs[1..], k)
    else [fs[0]] + Delete(fs[1..], k)
  }

  /** Writing one key leaves the others as they were. */
  lemma {:induction false} GetPut(fs: seq<Field>, k: string, v: Value, j: string)
    requires j != k
    ensures Get(Put(fs, k, v), j) == Get(fs, j)
  {
    if fs != [] && fs[0].key != k {
      GetPut(fs[1..], k, v, j);
    }
  }

  /** Deleting one key leaves the others as they were. */
  lemma {:induction false} GetDelete(fs: seq<Field>, k: string, j: string)
    requires j != k
    ensures Get(Delete(fs, k), j) == Get(fs, j)
    ensures j in Keys(Delete(fs, k)) <==> j in Keys(fs)
  {
    if fs != [] {
      GetDelete(fs[1..], k, j);
      assert Keys(fs) == [fs[0].key] + Keys(fs[1..]);
      if fs[0].key != k {
        assert Keys(Delete(fs, k)) == [fs[0].key] + Keys(Delete(fs[1..], k));
      }
    }
  }

  /** `s.split(sep)`: the pieces between separators, including empty ones;
      the empty string splits into one empty piece. */
  function Split(s: string, sep: char): (parts: seq<string>)
    ensures |parts| >= 1
  {
    if s == [] then [""]
    else
      var rest := Split(s[1..], sep);
      if s[0] == sep then [""] + rest
      else [[s[0]] + rest[0]] + rest[1..]
  }

  /** `parts.join(sep)`. */
  function Join(parts: seq<string>, sep: string): string
  {
    if parts == [] then ""
    else if |parts| == 1 then parts[0]
    else parts[0] + sep + Join(parts[1..], sep)
  }

  lemma {:induction false} JoinCons(w: string, ws: seq<string>, sep: string)
    requires ws != []
    ensures Join([w] + ws, sep) == w + sep + Join(ws, sep)
  {
    assert ([w] + ws)[1..] == ws;
  }

  /** Joining the pieces of a split with the same separator gives back the
      string. */
  lemma {:induction false} JoinSplit(s: string, sep: char)
    ensures Join(Split(s, sep), [sep]) == s
  {
    if s != [] {
      var rest := Split(s[1..], sep);
      JoinSplit(s[1..], sep);
      assert s == [s[0]] + s[1..];
      if s[0] == sep {
        assert Split(s, sep) == [""] + rest;
        JoinCons("", rest, [sep]);
      } else {
        var head := [s[0]] + rest[0];
        if |rest| == 1 {
          assert Split(s, sep) == [head];
          assert Join(rest, [sep]) == rest[0];
        } else {
          assert Split(s, sep) == [head] + rest[1..];
          JoinCons(head, rest[1..], [sep]);
          JoinCons(rest[0], rest[1..], [sep]);
          assert rest == [rest[0]] + rest[1..];
          assert s[1..] == rest[0] + [sep] + Join(rest[1..], [sep]);
        }
      }
    }
  }

  lemma {:induction false} SplitNoSeparator(w: string, t: string, sep: char)
    requires sep !in w
    ensures Split(w + t, sep) == [w + Split(t, sep)[0]] + Split(t, sep)[1..]
  {
    if w != [] {
      assert (w + t)[1..] == w[1..] + t;
      SplitNoSeparator(w[1..], t, sep);
      assert [w[0]] + (w[1..] + Split(t, sep)[0]) == w + Split(t, sep)[0];
    } else {
      var p := Split(t, sep);
      assert w + t == t;
      assert w + p[0] == p[0];
      assert p == [p[0]] + p[1..];
    }
  }

  /** Splitting a join of separator-free words gives back the words. */
  lemma {:induction false} SplitJoin(ws: seq<string>, sep: char)
    requires |ws| >= 1
    requires forall i :: 0 <= i < |ws| ==> sep !in ws[i]
    ensures Split(Join(ws, [sep]), sep) == ws
  {
    if |ws| == 1 {
      SplitNoSeparator(ws[0], "", sep);
      assert ws[0] + "" == ws[0];
    } else {
      var t := Join(ws[1..], [sep]);
      SplitJoin(ws[1..], sep);
      assert Join(ws, [sep]) == ws[0] + ([sep] + t);
      SplitNoSeparator(ws[0], [sep] + t, sep);
      assert ([sep] + t)[1..] == t;
      assert Split([sep] + t, sep) == [""] + ws[1..];
      assert ws[0] + "" == ws[0];
    }
  }

  /** ASCII part of `toUpperCase` / `toLowerCase`. */
  function UpperChar(c: char): char
  {
    if 'a' <= c <= 'z' then (c as int - 32) as char else c
  }

  function LowerChar(c: char): char
  {
    if 'A' <= c <= 'Z' then (c as int + 32) as char else c
  }

  function Lower(s: string): (r: string)
    ensures |r| == |s|
    ensures forall i :: 0 <= i < |s| ==> r[i] == LowerChar(s[i])
  {
    if s == [] then [] else [LowerChar(s[0])] + Lower(s[1..])
  }

  /** `s.charAt(0).toUpperCase() + s.slice(1)`. */
  function Capitalize(s: string): (r: string)
    ensures |r| == |s|
    ensures s != [] ==> r[0] == UpperChar(s[0]) && r[1..] == s[1..]
  {
    if s == [] then [] else [UpperChar(s[0])] + s[1..]
  }

  /** The characters `Number(text)` trims: JavaScript's white space and line
      terminators. */
  predicate IsJsSpace(c: char)
  {
    var n := c as int;
    n == 9 || n == 10 || n == 11 || n == 12 || n == 13 || n == 32 || n == 160 || n == 5760 ||
    (8192 <= n <= 8202) || n == 8232 || n == 8233 || n == 8239 || n == 8287 || n == 12288 || n == 65279
  }

  /** `s.trim()`. */
  function Trim(s: string): (r: string)
    ensures |r| <= |s|
    ensures r != [] ==> !IsJsSpace(r[0]) && !IsJsSpace(r[|r| - 1])
    decreases |s|
  {
    if s == [] then []
    else if IsJsSpace(s[0]) then Trim(s[1..])
    else if IsJsSpace(s[|s| - 1]) then Trim(s[..|s| - 1])
    else s
  }

  /** A decimal numeral of value zero: an optional sign, then zeros with at
      most one decimal point, and at least one zero. */
  predicate ZeroNumeral(t: string)
  {
    var body := if t != [] && (t[0] == '+' || t[0] == '-') then t[1..] else t;
    && '0' in body
    && (forall i :: 0 <= i < |body| ==> body[i] == '0' || body[i] == '.')
    && (forall i, j :: 0 <= i < j < |body| && body[i] == '.' ==> body[j] != '.')
  }

  /** Whether text converts to the number zero: blank text does, and so
      does a zero numeral between blanks. */
  predicate ZeroText(s: string)
  {
    var t := Trim(s);
    t == [] || ZeroNumeral(t)
  }

  /** `v == 0` with JavaScript's loose equality. A boolean and text compare
      as numbers; an array compares as the text of its items joined by
      commas, so only an empty one or one whose single item reads as zero
      text qualifies; null, undefined, functions and plain objects never
      equal zero. */
  predicate LooseZero(v: Value)
  {
    match v
    case Num(n) => n == 0.0
    case Bool(b) => !b
    case Str(s) => ZeroText(s)
    case List(items) => |items| == 0 || (|items| == 1 && ItemZero(items[0]))
    case _ => false
  }

  /** Whether an array item's text reads as zero: null and undefined give
      empty text, `false` gives the text `false`. */
  predicate ItemZero(x: Value)
  {
    match x
    case Null => true
    case Undefined => true
    case Num(n) => n == 0.0
    case Str(s) => ZeroText(s)
    case List(items) => |items| == 0 || (|items| == 1 && ItemZero(items[0]))
    case _ => false
  }

  /** Loose equality with zero on the values that are easy to get wrong:
      `false`, blank text and empty arrays are zero; null and undefined are
      not. */
  lemma LooseZeroExamples()
    ensures LooseZero(Bool(false)) && LooseZero(Str("")) && LooseZero(List([]))
    ensures LooseZero(List([Null])) && LooseZero(List([Str("0")]))
    ensures !LooseZero(Null) && !LooseZero(Undefined)
    ensures !LooseZero(List([Bool(false)])) && !LooseZero(List([Num(0.0), Num(0.0)]))
  {
    assert Trim("0") == "0";
  }

  /** Text is trimmed before it is read as a numeral, and a sign is allowed. */
  lemma ZeroTextExamples()
    ensures ZeroText(" 0.0 ") && ZeroText("-0") && !ZeroText(".") && !ZeroText("1")
  {
    assert Trim(" 0.0 ") == "0.0" by {
      assert " 0.0 "[1..] == "0.0 ";
      assert "0.0 "[..3] == "0.0";
    }
    assert "-0"[1..] == "0";
    assert Trim(".") == ".";
    assert Trim("1") == "1";
  }
}
