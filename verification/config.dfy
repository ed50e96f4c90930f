/** The configuration document as YAML loads it, and the per-target
    property lookup with fallback to the `defaults` block
    (`get_compose_config_prop`). */
module Config {
  import opened Outcomes
  import opened Numerals

  /** A YAML scalar or list; `Null` is Python's None. */
  datatype Value = Null | Bool(b: bool) | Int(i: int) | Str(s: string) | List(items: seq<Value>)

  /** Python truthiness: None, False, 0, "" and [] are false. */
  predicate Truthy(v: Value) {
    match v
    case Null => false
    case Bool(b) => b
    case Int(i) => i != 0
    case Str(s) => |s| > 0
    case List(items) => |items| > 0
  }

  /** The number a value stands for in an order comparison with an `int`:
      an `int` itself, or a `bool` as 0 or 1; None for the values Python
      refuses to compare with a number (None, strings, lists). */
  function Number(v: Value): (r: Option<int>)
    ensures r.Some? <==> v.Int? || v.Bool?
    ensures v.Int? ==> r == Some(v.i)
    ensures v.Bool? ==> r == Some(if v.b then 1 else 0)
  {
    match v
    case Int(i) => Some(i)
    case Bool(b) => Some(if b then 1 else 0)
    case _ => None
  }

  /** What `",".join(v)` accepts: a string (joined character by character)
      or a list of strings. */
  predicate Joinable(v: Value) {
    v.Str? || (v.List? && forall i :: 0 <= i < |v.items| ==> v.items[i].Str?)
  }

  /** `str(v)`, which `str.format` uses, for the scalar values. */
  function Render(v: Value): string
    requires !v.List?
  {
    match v
    case Null => "None"
    case Bool(b) => if b then "True" else "False"
    case Int(i) => IntToString(i)
    case Str(s) => s
  }

  /** One entry of `composes`: the keys the scripts read directly, and the
      optional per-target overrides (`email_to`, `alert_days`, ...). */
  datatype TargetConf = TargetConf(
    url: string, name: string, version: string, description: Option<string>,
    props: map<string, Value>)

  /** The configuration: the targets in order and the optional `defaults` block. */
  datatype Conf = Conf(composes: seq<TargetConf>, defaults: Option<map<string, Value>>)

  /** `d.get(key)`: None for a missing key. */
  function Lookup(m: map<string, Value>, key: string): Value {
    if key in m then m[key] else Null
  }

  /** `get_compose_config_prop`: the target's own value unless it is None
      (a falsy value such as "" or 0 is kept), else the `defaults` value,
      else None. */
  function ConfigProp(prop: string, conf: Conf, target: TargetConf): (r: Value)
    ensures Lookup(target.props, prop) != Null ==> r == Lookup(target.props, prop)
    ensures Lookup(target.props, prop) == Null && conf.defaults.Some? ==> r == Lookup(conf.defaults.value, prop)
    ensures Lookup(target.props, prop) == Null && conf.defaults.None? ==> r == Null
    ensures r != Null ==> (prop in target.props && r == target.props[prop])
                          || (conf.defaults.Some? && prop in conf.defaults.value && r == conf.defaults.value[prop])
  {
    var own := Lookup(target.props, prop);
    if own != Null then own
    else
      match conf.defaults
      case Some(defaults) => Lookup(defaults, prop)
      case None => Null
  }

  /** A falsy but present target value shadows the default; only an absent
      or None one falls through. */
  lemma FalsyOverrideWins(prop: string, conf: Conf, target: TargetConf, v: Value)
    requires prop in target.props && target.props[prop] == v && v != Null && !Truthy(v)
    ensures ConfigProp(prop, conf, target) == v
    ensures !Truthy(ConfigProp(prop, conf, target))
  {
  }
}
