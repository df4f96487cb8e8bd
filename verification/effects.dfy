/** The background effect chain: the configured effects (an ordered map from an
    effect name to its argument), the whitelist that `applyEffects` filters them
    through, and the way each argument is passed on (src/OpenGraphImage.php:393-428). */
module Effects {

  /** An argument value as it can appear in the configuration. */
  datatype Value =
    | IntV(i: int)
    | RealV(x: real)
    | StrV(s: string)
    | BoolV(b: bool)
    | ListV(items: seq<Value>)

  /** The value stored under an effect name: `null` or a value. */
  datatype Setting = NoArgument | Given(value: Value)

  /** One key/value pair of `backgroundEffects`, in the caller's order. */
  datatype Entry = Entry(name: string, setting: Setting)

  /** The twelve effect names `applyEffects` accepts. */
  const Available: seq<string> := [
    "brightness", "contrast", "gamma", "colorize", "greyscale", "flop",
    "flip", "blur", "sharpen", "invert", "pixelate", "reduceColors"
  ]

  /** `name` is one of `names`, compared one name at a time. */
  predicate Listed(name: string, names: seq<string>)
    decreases |names|
  {
    names != [] && (names[0] == name || Listed(name, names[1..]))
  }

  lemma {:induction false} ListedIsMembership(name: string, names: seq<string>)
    ensures Listed(name, names) <==> name in names
  {
    if names != [] {
      ListedIsMembership(name, names[1..]);
      assert names == [names[0]] + names[1..];
    }
  }

  /** `in_array($name, $availableEffects)`. */
  predicate Recognised(name: string) {
    Listed(name, Available)
  }

  /** `array_filter(..., ARRAY_FILTER_USE_KEY)` keeping the whitelisted names. */
  function Filter(es: seq<Entry>): (r: seq<Entry>)
    ensures |r| <= |es|
  {
    if es == [] then []
    else if Recognised(es[0].name) then [es[0]] + Filter(es[1..])
    else Filter(es[1..])
  }

  /** Exactly the recognised entries of `es` survive the filter. */
  lemma {:induction false} FilterMembers(es: seq<Entry>)
    ensures forall e :: e in Filter(es) <==> e in es && Recognised(e.name)
  {
    if es != [] {
      FilterMembers(es[1..]);
      assert forall e :: e in es <==> e == es[0] || e in es[1..];
    }
  }

  /** `a` is `b` with some elements left out, the others in their order. */
  predicate IsSubsequence<T(==)>(a: seq<T>, b: seq<T>)
    decreases |b|
  {
    if a == [] then true
    else if b == [] then false
    else (a[0] == b[0] && IsSubsequence(a[1..], b[1..])) || IsSubsequence(a, b[1..])
  }

  /** The surviving effects keep the caller's relative order. */
  lemma {:induction false} FilterIsSubsequence(es: seq<Entry>)
    ensures IsSubsequence(Filter(es), es)
  {
    if es != [] {
      FilterIsSubsequence(es[1..]);
    }
  }

  /** Filtering works piece by piece: the effects of a longer configuration are
      those of its first part followed by those of the rest. */
  lemma {:induction false} FilterAppend(a: seq<Entry>, b: seq<Entry>)
    ensures Filter(a + b) == Filter(a) + Filter(b)
  {
    if a != [] {
      assert (a + b)[0] == a[0] && (a + b)[1..] == a[1..] + b;
      FilterAppend(a[1..], b);
      if Recognised(a[0].name) {
        assert Filter(a + b) == [a[0]] + (Filter(a[1..]) + Filter(b));
      }
    } else {
      assert a + b == b;
    }
  }

  /** A configuration of recognised names only passes through unchanged. */
  lemma {:induction false} FilterKeepsRecognised(es: seq<Entry>)
    requires forall e :: e in es ==> Recognised(e.name)
    ensures Filter(es) == es
  {
    if es != [] {
      FilterKeepsRecognised(es[1..]);
    }
  }

  /** The arguments an effect is called with: none for `null`, the elements of
      an array spread positionally, any other value as the single argument. */
  function Arguments(s: Setting): (args: seq<Value>)
    ensures s.NoArgument? ==> args == []
    ensures s.Given? && s.value.ListV? ==> args == s.value.items
    ensures s.Given? && !s.value.ListV? ==> args == [s.value]
  {
    match s
    case NoArgument => []
    case Given(ListV(items)) => items
    case Given(v) => [v]
  }

  /** How the configuration documents writing the arguments of an effect:
      `null` for none, the bare value for one, an array for more than one. */
  function SettingFor(args: seq<Value>): (s: Setting)
  {
    if |args| == 0 then NoArgument
    else if |args| == 1 && !args[0].ListV? then Given(args[0])
    else Given(ListV(args))
  }

  /** Writing an argument list as the configuration documents it and then
      dispatching it gives back the same argument list. */
  lemma ArgumentsRoundTrip(args: seq<Value>)
    ensures Arguments(SettingFor(args)) == args
  {
  }

  /** Apart from an empty array, `null` is the only setting that passes no
      argument. */
  lemma ArgumentShapes(s: Setting)
    ensures s.NoArgument? <==> Arguments(s) == [] && !(s.Given? && s.value.ListV?)
  {
  }
}
