/**
 * `COptionsBase`: the typed options store. Options are registered with a
 * definition (type, default, flags, bounds, validator); values are created
 * from the defaults on first use; writes honour the definition's flags and
 * bounds and record which options changed; watchers are told which of the
 * options they watch have changed.
 */
module Options {
  import opened Common
  import opened Text

  // ---------------------------------------------------------------------
  // watched_options: a bitset of option indices, 64 to a 64-bit word; each
  // word is written as the set of its bit positions (0 to 63), so `|` is
  // union, `& ~` removal, `&` intersection and zero the empty set

  datatype Bits = Bits(words: seq<set<nat>>)

  /** `test`: the bit is inside the words and set. */
  predicate Test(b: Bits, opt: nat)
  {
    opt / 64 < |b.words| && opt % 64 in b.words[opt / 64]
  }

  /** `any` as a value: some word is non-zero. */
  predicate NonEmpty(b: Bits)
  {
    exists i :: 0 <= i < |b.words| && b.words[i] != {}
  }

  /** `set`: grow the words as needed and set the bit. */
  function Set(b: Bits, opt: nat): (r: Bits)
    ensures |r.words| == if opt / 64 < |b.words| then |b.words| else opt / 64 + 1
    ensures forall i :: 0 <= i < |r.words| && i != opt / 64 ==>
              r.words[i] == if i < |b.words| then b.words[i] else {}
  {
    var idx := opt / 64;
    var w := if idx >= |b.words| then b.words + seq(idx + 1 - |b.words|, _ => {}) else b.words;
    Bits(w[idx := w[idx] + {opt % 64}])
  }

  /** `unset`: clear the bit if its word exists. */
  function Unset(b: Bits, opt: nat): (r: Bits)
    ensures |r.words| == |b.words|
    ensures forall i :: 0 <= i < |r.words| && i != opt / 64 ==> r.words[i] == b.words[i]
  {
    var idx := opt / 64;
    if idx < |b.words| then Bits(b.words[idx := b.words[idx] - {opt % 64}]) else b
  }

  /** `operator&=` as a value: word-wise intersection, cut to the shorter operand. */
  function Intersect(b: Bits, op: seq<set<nat>>): (r: Bits)
    ensures |r.words| == Min(|b.words|, |op|)
    ensures forall i :: 0 <= i < |r.words| ==> r.words[i] == b.words[i] * op[i]
  {
    Bits(seq(Min(|b.words|, |op|), i requires 0 <= i < Min(|b.words|, |op|) => b.words[i] * op[i]))
  }

  lemma DivMod(a: nat, c: nat)
    requires a / 64 == c / 64 && a % 64 == c % 64
    ensures a == c
  {
  }

  /** After `set`, the bit tests true and every other bit is as it was. */
  lemma SetTest(b: Bits, opt: nat, other: nat)
    ensures Test(Set(b, opt), opt)
    ensures other != opt ==> (Test(Set(b, opt), other) <==> Test(b, other))
  {
    if other != opt && other / 64 == opt / 64 && other % 64 == opt % 64 {
      DivMod(other, opt);
    }
  }

  /** After `unset`, the bit tests false and every other bit is as it was. */
  lemma UnsetTest(b: Bits, opt: nat, other: nat)
    ensures !Test(Unset(b, opt), opt)
    ensures other != opt ==> (Test(Unset(b, opt), other) <==> Test(b, other))
  {
    if other != opt && other / 64 == opt / 64 && other % 64 == opt % 64 {
      DivMod(other, opt);
    }
  }

  /** After `&=`, exactly the bits set on both sides are set. */
  lemma IntersectTest(b: Bits, op: seq<set<nat>>, opt: nat)
    ensures Test(Intersect(b, op), opt) <==> Test(b, opt) && Test(Bits(op), opt)
  {
  }

  /** Words only ever hold the positions of a 64-bit word. */
  predicate WellFormed(b: Bits)
  {
    forall i, k :: 0 <= i < |b.words| && k in b.words[i] ==> k < 64
  }

  /** A well-formed set is non-empty exactly when some option tests true in it. */
  lemma NonEmptyTest(b: Bits)
    requires WellFormed(b)
    ensures NonEmpty(b) <==> exists opt: nat :: Test(b, opt)
  {
    if NonEmpty(b) {
      var i :| 0 <= i < |b.words| && b.words[i] != {};
      var k :| k in b.words[i];
      assert (i * 64 + k) / 64 == i && (i * 64 + k) % 64 == k;
      assert Test(b, i * 64 + k);
    }
  }

  /** `any`: scan the words for a non-zero one. */
  method Any(b: Bits) returns (r: bool)
    ensures r <==> NonEmpty(b)
  {
    for i := 0 to |b.words|
      invariant forall j :: 0 <= j < i ==> b.words[j] == {}
    {
      if b.words[i] != {} {
        return true;
      }
    }
    return false;
  }

  /** `operator&=`: cut to the shorter length, then intersect word by word. */
  method IntersectWith(b: Bits, op: seq<set<nat>>) returns (r: Bits)
    ensures r == Intersect(b, op)
  {
    var s := Min(|b.words|, |op|);
    var words := b.words[..s];
    for i := 0 to s
      invariant |words| == s
      invariant forall j :: 0 <= j < i ==> words[j] == b.words[j] * op[j]
      invariant forall j :: i <= j < s ==> words[j] == b.words[j]
    {
      words := words[i := words[i] * op[i]];
    }
    r := Bits(words);
  }

  // ---------------------------------------------------------------------
  // Numbers and text

  /**
   * `fz::to_integral<int>`: an optional sign and at least one digit, else
   * the error value 0.
   */
  function ToIntegral(s: seq<char>): (r: int)
  {
    if s == [] then 0
    else
      var digits := if s[0] == '-' || s[0] == '+' then s[1..] else s;
      if digits == [] || !AllDigits(digits) then 0
      else if s[0] == '-' then 0 - DigitsValue(digits) else DigitsValue(digits)
  }

  /** `fz::to_wstring(int)`: decimal, with a leading `-` when negative. */
  function IntToString(n: int): (s: seq<char>)
  {
    if n < 0 then "-" + Decimal(-n) else Decimal(n)
  }

  /** Formatting a number and reading it back gives the number. */
  lemma IntRoundTrip(n: int)
    ensures ToIntegral(IntToString(n)) == n
  {
    if n < 0 {
      DecimalRoundTrip(-n);
      assert IntToString(n)[1..] == Decimal(-n);
    } else {
      DecimalRoundTrip(n);
    }
  }

  // ---------------------------------------------------------------------
  // Definitions and values

  datatype OptionType = StringType | NumberType | BooleanType | XmlType

  /**
   * `option_def`. A validator may refuse a value (`None`) or rewrite it.
   * The XML document is written in its serialised form.
   */
  datatype OptionDef = OptionDef(
    name: seq<char>,
    default: seq<char>,
    kind: OptionType,
    defaultOnly: bool,       // option_flags::default_only
    defaultPriority: bool,   // option_flags::default_priority
    numericClamp: bool,      // option_flags::numeric_clamp
    min: int,
    max: int,
    intValidator: Option<int -> Option<int>>,
    stringValidator: Option<seq<char> -> Option<seq<char>>>,
    xmlValidator: Option<seq<char> -> Option<seq<char>>>)

  /** `option_value`: the text and number forms, the XML document, and whether it came from the defaults. */
  datatype OptionValue = OptionValue(str: seq<char>, v: int, xml: seq<char>, fromDefault: bool)

  /** What a write does to one value: refused, or stored, and whether it changed. */
  datatype Outcome = Rejected | Stored(val: OptionValue, changed: bool)

  /** `add_missing` for one option: an XML document loaded from the default, or the default as text and number. */
  function Initial(def: OptionDef): (val: OptionValue)
    ensures !val.fromDefault && val.v == ToIntegral(val.str)
  {
    if def.kind == XmlType then OptionValue([], 0, def.default, false)
    else OptionValue(def.default, ToIntegral(def.default), [], false)
  }

  function Clamp(def: OptionDef, value: int): int
  {
    if value < def.min then def.min else if value > def.max then def.max else value
  }

  /** The flags let this write through: not a user write to a defaults-only option, nor over a default with priority. */
  predicate FlagsAllow(def: OptionDef, val: OptionValue, fromDefault: bool)
  {
    !(def.defaultOnly && !fromDefault) && !(def.defaultPriority && !fromDefault && val.fromDefault)
  }

  /**
   * The numeric `set`: flags first; out of range is refused unless
   * clamping is on; then the validator; an equal value records only where
   * it came from; a new one is stored as number and text.
   */
  function ApplyNumber(def: OptionDef, val: OptionValue, value: int, fromDefault: bool): (o: Outcome)
    ensures !FlagsAllow(def, val, fromDefault) ==> o == Rejected
    ensures !def.numericClamp && (value < def.min || value > def.max) ==> o == Rejected
    ensures o.Stored? ==> o.val.fromDefault == fromDefault && o.val.xml == val.xml &&
                          (o.changed <==> o.val.v != val.v) &&
                          (!o.changed ==> o.val == val.(fromDefault := fromDefault)) &&
                          (o.changed ==> o.val.str == IntToString(o.val.v))
    ensures def.intValidator.None? ==>
              (o.Stored? <==> FlagsAllow(def, val, fromDefault) && (def.numericClamp || def.min <= value <= def.max)) &&
              (o.Stored? ==> o.val.v == Clamp(def, value))
  {
    if !FlagsAllow(def, val, fromDefault) then Rejected
    else if !def.numericClamp && (value < def.min || value > def.max) then Rejected
    else
      var clamped := Clamp(def, value);
      var checked := if def.intValidator.Some? then def.intValidator.value(clamped) else Some(clamped);
      if checked.None? then Rejected
      else if checked.value == val.v then Stored(val.(fromDefault := fromDefault), false)
      else Stored(val.(v := checked.value, str := IntToString(checked.value), fromDefault := fromDefault), true)
  }

  /** The length limit of a text option (a negative limit, as an unsigned size, never binds). */
  predicate TooLong(def: OptionDef, value: seq<char>)
  {
    def.max >= 0 && |value| > def.max
  }

  /**
   * The text `set`: flags; the length limit; the validator, which may
   * rewrite the text; an equal text records only where it came from; a
   * new one is stored as text and number.
   */
  function ApplyString(def: OptionDef, val: OptionValue, value: seq<char>, fromDefault: bool): (o: Outcome)
    ensures !FlagsAllow(def, val, fromDefault) || TooLong(def, value) ==> o == Rejected
    ensures o.Stored? ==> o.val.fromDefault == fromDefault && o.val.xml == val.xml &&
                          (o.changed <==> o.val.str != val.str) &&
                          (!o.changed ==> o.val == val.(fromDefault := fromDefault)) &&
                          (o.changed ==> o.val.v == ToIntegral(o.val.str))
    ensures def.stringValidator.None? ==>
              (o.Stored? <==> FlagsAllow(def, val, fromDefault) && !TooLong(def, value)) &&
              (o.Stored? ==> o.val.str == value)
  {
    if !FlagsAllow(def, val, fromDefault) || TooLong(def, value) then Rejected
    else
      var checked := if def.stringValidator.Some? then def.stringValidator.value(value) else Some(value);
      if checked.None? then Rejected
      else if checked.value == val.str then Stored(val.(fromDefault := fromDefault), false)
      else Stored(val.(v := ToIntegral(checked.value), str := checked.value, fromDefault := fromDefault), true)
  }

  /**
   * The XML `set`: flags, the validator, then the document is replaced and
   * counts as a change, equal or not; where it came from is not recorded.
   */
  function ApplyXml(def: OptionDef, val: OptionValue, value: seq<char>, fromDefault: bool): (o: Outcome)
    ensures !FlagsAllow(def, val, fromDefault) ==> o == Rejected
    ensures o.Stored? ==> o.changed && o.val.str == val.str && o.val.v == val.v && o.val.fromDefault == val.fromDefault
    ensures def.xmlValidator.None? ==> (o.Stored? <==> FlagsAllow(def, val, fromDefault)) &&
                                       (o.Stored? ==> o.val.xml == value)
  {
    if !FlagsAllow(def, val, fromDefault) then Rejected
    else
      var checked := if def.xmlValidator.Some? then def.xmlValidator.value(value) else Some(value);
      if checked.None? then Rejected else Stored(val.(xml := checked.value), true)
  }

  /** `set(opt, int)`: by the option's type, as a number, a 0/1 flag, or decimal text. */
  function IntOutcome(def: OptionDef, val: OptionValue, value: int): Outcome
  {
    match def.kind
    case NumberType => ApplyNumber(def, val, value, false)
    case BooleanType => ApplyNumber(def, val, if value != 0 then 1 else 0, false)
    case StringType => ApplyString(def, val, IntToString(value), false)
    case XmlType => Rejected
  }

  /** `set(opt, text, from_default)`: number and flag options read the text as a number. */
  function StringOutcome(def: OptionDef, val: OptionValue, value: seq<char>, fromDefault: bool): Outcome
  {
    match def.kind
    case NumberType => ApplyNumber(def, val, ToIntegral(value), fromDefault)
    case BooleanType => ApplyNumber(def, val, ToIntegral(value), fromDefault)
    case StringType => ApplyString(def, val, value, fromDefault)
    case XmlType => Rejected
  }

  /** `set(opt, xml)`: only XML options take a document. */
  function XmlOutcome(def: OptionDef, val: OptionValue, value: seq<char>): Outcome
  {
    if def.kind == XmlType then ApplyXml(def, val, value, false) else Rejected
  }

  /** A value whose number is its text read as a number. */
  predicate Consistent(val: OptionValue)
  {
    val.v == ToIntegral(val.str)
  }

  /** Every numeric write keeps a value's number and text in step. */
  lemma NumberConsistent(def: OptionDef, val: OptionValue, value: int, fromDefault: bool)
    requires Consistent(val)
    ensures var o := ApplyNumber(def, val, value, fromDefault); o.Stored? ==> Consistent(o.val)
  {
    var o := ApplyNumber(def, val, value, fromDefault);
    if o.Stored? && o.changed {
      IntRoundTrip(o.val.v);
    }
  }

  /** Every write keeps a value's number and text in step. */
  lemma OutcomeConsistent(def: OptionDef, val: OptionValue, value: int, text: seq<char>, xml: seq<char>,
                          fromDefault: bool)
    requires Consistent(val)
    ensures var o := IntOutcome(def, val, value); o.Stored? ==> Consistent(o.val)
    ensures var o := StringOutcome(def, val, text, fromDefault); o.Stored? ==> Consistent(o.val)
    ensures var o := XmlOutcome(def, val, xml); o.Stored? ==> Consistent(o.val)
  {
    match def.kind
    case NumberType =>
      NumberConsistent(def, val, value, false);
      NumberConsistent(def, val, ToIntegral(text), fromDefault);
    case BooleanType =>
      NumberConsistent(def, val, if value != 0 then 1 else 0, false);
      NumberConsistent(def, val, ToIntegral(text), fromDefault);
    case StringType =>
    case XmlType =>
  }

  /** Writing the value already there, from the same source, changes nothing and is reported as no change. */
  lemma RewriteIsNoChange(def: OptionDef, val: OptionValue)
    requires def.kind == NumberType && def.intValidator.None? && FlagsAllow(def, val, false)
    requires def.min <= val.v <= def.max
    ensures IntOutcome(def, val, val.v) == Stored(val.(fromDefault := false), false)
  {
  }

  /** `values_` after `add_missing`: the existing values, then the defaults of the options not yet used. */
  function Filled(values: seq<OptionValue>, options: seq<OptionDef>): (r: seq<OptionValue>)
    requires |values| <= |options|
    ensures |r| == |options| && r[..|values|] == values
    ensures forall i :: |values| <= i < |options| ==> r[i] == Initial(options[i])
  {
    values + seq(|options| - |values|, k requires 0 <= k < |options| - |values| => Initial(options[|values| + k]))
  }

  /** A watcher: its handler (0 for none), the options it watches, and whether it watches all. */
  datatype Watcher = Watcher(handler: nat, options: Bits, all: bool)

  /** The first watcher of `handler`, or -1. */
  function FindWatcher(ws: seq<Watcher>, handler: nat): (k: int)
    ensures -1 <= k < |ws|
    ensures k >= 0 ==> ws[k].handler == handler && forall j :: 0 <= j < k ==> ws[j].handler != handler
    ensures k == -1 ==> forall j :: 0 <= j < |ws| ==> ws[j].handler != handler
  {
    if ws == [] then -1
    else if ws[|ws| - 1].handler == handler && FindWatcher(ws[..|ws| - 1], handler) == -1 then |ws| - 1
    else FindWatcher(ws[..|ws| - 1], handler)
  }

  /** At most one watcher per handler, and every watcher has one. */
  predicate UniqueHandlers(ws: seq<Watcher>)
  {
    (forall i, j :: 0 <= i < j < |ws| ==> ws[i].handler != ws[j].handler) &&
    (forall i :: 0 <= i < |ws| ==> ws[i].handler != 0)
  }

  /** `watchers_[i] = watchers_.back(); watchers_.pop_back();` */
  function SwapRemove(ws: seq<Watcher>, k: nat): (r: seq<Watcher>)
    requires k < |ws|
    ensures |r| == |ws| - 1
    ensures forall w :: w in r ==> w in ws
    ensures forall j :: 0 <= j < |ws| && j != k ==> ws[j] in r
  {
    var r := ws[k := ws[|ws| - 1]][..|ws| - 1];
    assert forall j :: 0 <= j < |ws| - 1 && j != k ==> r[j] == ws[j];
    assert k < |ws| - 1 ==> r[k] == ws[|ws| - 1];
    r
  }

  lemma SwapRemoveUnique(ws: seq<Watcher>, k: nat)
    requires k < |ws| && UniqueHandlers(ws)
    ensures UniqueHandlers(SwapRemove(ws, k))
    ensures forall j :: 0 <= j < |SwapRemove(ws, k)| ==> SwapRemove(ws, k)[j].handler != ws[k].handler
  {
    var r := SwapRemove(ws, k);
    assert forall j :: 0 <= j < |r| ==> r[j] == (if j == k then ws[|ws| - 1] else ws[j]);
  }

  /** The changed options a watcher is told about: all of them, or those it watches. */
  function Share(w: Watcher, changed: Bits): Bits
  {
    if w.all then changed else Intersect(changed, w.options.words)
  }

  /** The positions of the watchers whose share is not empty, in watcher order. */
  function Delivered(ws: seq<Watcher>, changed: Bits): (js: seq<nat>)
    ensures forall i :: 0 <= i < |js| ==> js[i] < |ws|
    ensures forall i, k :: 0 <= i < k < |js| ==> js[i] < js[k]
    ensures forall j :: 0 <= j < |ws| ==> (j in js <==> NonEmpty(Share(ws[j], changed)))
  {
    if ws == [] then []
    else
      var prev := Delivered(ws[..|ws| - 1], changed);
      assert forall j :: 0 <= j < |ws| - 1 ==> ws[..|ws| - 1][j] == ws[j];
      if NonEmpty(Share(ws[|ws| - 1], changed)) then prev + [|ws| - 1] else prev
  }

  /** What one round of notification hands each watcher: the changed options it watches, if any. */
  function Deliveries(ws: seq<Watcher>, changed: Bits): (d: seq<(nat, Bits)>)
    ensures |d| <= |ws|
    ensures forall i :: 0 <= i < |d| ==>
              (NonEmpty(d[i].1) &&
               exists j :: 0 <= j < |ws| && ws[j].handler == d[i].0 &&
                 (forall opt: nat :: Test(d[i].1, opt) ==> Test(changed, opt) && (ws[j].all || Test(ws[j].options, opt))))
  {
    if ws == [] then []
    else
      var w := ws[|ws| - 1];
      var n := Share(w, changed);
      var prev := Deliveries(ws[..|ws| - 1], changed);
      assert forall opt: nat :: Test(n, opt) ==> Test(changed, opt) && (w.all || Test(w.options, opt)) by {
        forall opt: nat | Test(n, opt)
          ensures Test(changed, opt) && (w.all || Test(w.options, opt))
        {
          if !w.all {
            IntersectTest(changed, w.options.words, opt);
          }
        }
      }
      if NonEmpty(n) then prev + [(w.handler, n)] else prev
  }

  /**
   * Completeness of one round: the deliveries are, in watcher order, exactly
   * the handlers of the watchers whose share is not empty, each with its share.
   */
  lemma {:induction false} DeliveriesInOrder(ws: seq<Watcher>, changed: Bits)
    ensures |Deliveries(ws, changed)| == |Delivered(ws, changed)|
    ensures forall i :: 0 <= i < |Delivered(ws, changed)| ==>
              Deliveries(ws, changed)[i] == (ws[Delivered(ws, changed)[i]].handler, Share(ws[Delivered(ws, changed)[i]], changed))
  {
    if ws != [] {
      DeliveriesInOrder(ws[..|ws| - 1], changed);
    }
  }

  /**
   * The store: the registered definitions and the name index (shared by
   * all stores in the source), the values, the options changed since the
   * last notification, and the watchers. `notifications` counts the calls
   * to `notify_changed`.
   */
  class OptionsStore {
    var options: seq<OptionDef>
    var nameToOption: map<seq<char>, nat>
    var values: seq<OptionValue>
    var changed: Bits
    var canNotify: bool
    var notifications: nat
    var watchers: seq<Watcher>

    predicate Valid()
      reads this
    {
      |values| <= |options| && (forall i :: 0 <= i < |values| ==> Consistent(values[i])) &&
      UniqueHandlers(watchers)
    }

    constructor (canNotify: bool)
      ensures Valid() && options == [] && nameToOption == map[] && values == [] && changed == Bits([])
      ensures this.canNotify == canNotify && notifications == 0 && watchers == []
    {
      options, nameToOption, values := [], map[], [];
      changed := Bits([]);
      this.canNotify := canNotify;
      notifications := 0;
      watchers := [];
    }

    /** The index names no registered option (`optionsIndex::invalid` is -1). */
    predicate Invalid(opt: int)
      reads this
    {
      opt < 0 || opt >= |options|
    }

    /**
     * `register_options`: append the definitions and index them by name (a
     * later definition of a name wins); return the index of the first.
     */
    method RegisterOptions(defs: seq<OptionDef>) returns (prev: nat)
      requires Valid()
      modifies this`options, this`nameToOption
      ensures Valid()
      ensures prev == |old(options)| && options == old(options) + defs
      ensures forall i :: 0 <= i < |defs| ==>
                defs[i].name in nameToOption && prev <= nameToOption[defs[i].name] < |options| &&
                options[nameToOption[defs[i].name]].name == defs[i].name
      ensures forall n :: n in old(nameToOption) && (forall i :: 0 <= i < |defs| ==> defs[i].name != n) ==>
                n in nameToOption && nameToOption[n] == old(nameToOption)[n]
    {
      prev := |options|;
      options := options + defs;
      for i := prev to |options|
        invariant options == old(options) + defs
        invariant forall j :: 0 <= j < i - prev ==>
                    defs[j].name in nameToOption && prev <= nameToOption[defs[j].name] < i &&
                    options[nameToOption[defs[j].name]].name == defs[j].name
        invariant forall n :: n in old(nameToOption) && (forall j :: 0 <= j < |defs| ==> defs[j].name != n) ==>
                    n in nameToOption && nameToOption[n] == old(nameToOption)[n]
      {
        nameToOption := nameToOption[options[i].name := i];
      }
    }

    /** `add_missing`: give every registered option without a value its default. */
    method AddMissing()
      requires Valid()
      modifies this`values
      ensures Valid()
      ensures values == Filled(old(values), options)
    {
      if |values| >= |options| {
        return;
      }
      var i := |values|;
      ghost var start := values;
      while i < |options|
        invariant |start| <= i <= |options|
        invariant values == Filled(start, options[..i])
        invariant forall j :: 0 <= j < |values| ==> Consistent(values[j])
      {
        values := values + [Initial(options[i])];
        i := i + 1;
      }
      assert options[..i] == options;
    }

    /** `get_int`: the option's number, 0 for an invalid index. */
    method GetInt(opt: int) returns (r: int)
      requires Valid()
      modifies this`values
      ensures Valid()
      ensures Invalid(opt) ==> r == 0 && values == old(values)
      ensures !Invalid(opt) ==> values == Filled(old(values), options) && r == values[opt].v
    {
      if opt < 0 || opt >= |options| {
        return 0;
      }
      AddMissing();
      r := values[opt].v;
    }

    /** `get_string`: the option's text, empty for an invalid index. */
    method GetString(opt: int) returns (r: seq<char>)
      requires Valid()
      modifies this`values
      ensures Valid()
      ensures Invalid(opt) ==> r == [] && values == old(values)
      ensures !Invalid(opt) ==> values == Filled(old(values), options) && r == values[opt].str
    {
      if opt < 0 || opt >= |options| {
        return [];
      }
      AddMissing();
      r := values[opt].str;
    }

    /** `get_xml`: a copy of the option's document, an empty one for an invalid index. */
    method GetXml(opt: int) returns (r: seq<char>)
      requires Valid()
      modifies this`values
      ensures Valid()
      ensures Invalid(opt) ==> r == [] && values == old(values)
      ensures !Invalid(opt) ==> values == Filled(old(values), options) && r == values[opt].xml
    {
      if opt < 0 || opt >= |options| {
        return [];
      }
      AddMissing();
      r := values[opt].xml;
    }

    /** `from_default`: whether the option's value came from the defaults; false for an invalid index. */
    method FromDefault(opt: int) returns (r: bool)
      requires Valid()
      modifies this`values
      ensures Valid()
      ensures Invalid(opt) ==> !r && values == old(values)
      ensures !Invalid(opt) ==> values == Filled(old(values), options) && r == values[opt].fromDefault
    {
      if opt < 0 || opt >= |options| {
        return false;
      }
      AddMissing();
      r := values[opt].fromDefault;
    }

    /**
     * `set_changed`: mark the option changed; `notify_changed` runs only
     * when notifying is allowed and nothing was pending.
     */
    method SetChanged(opt: nat)
      modifies this`changed, this`notifications
      ensures changed == Set(old(changed), opt)
      ensures notifications == old(notifications) + if canNotify && !NonEmpty(old(changed)) then 1 else 0
    {
      var pending := Any(changed);
      var notify := canNotify && !pending;
      changed := Set(changed, opt);
      if notify {
        notifications := notifications + 1;
      }
    }

    /** Store an outcome for a valid option, marking it changed when it changed. */
    method Commit(opt: nat, o: Outcome)
      requires Valid() && opt < |values| && (o.Stored? ==> Consistent(o.val))
      modifies this`values, this`changed, this`notifications
      ensures Valid()
      ensures values == if o.Stored? then old(values)[opt := o.val] else old(values)
      ensures o.Stored? && o.changed ==>
                (changed == Set(old(changed), opt) &&
                 notifications == old(notifications) + if canNotify && !NonEmpty(old(changed)) then 1 else 0)
      ensures !(o.Stored? && o.changed) ==> changed == old(changed) && notifications == old(notifications)
    {
      if o.Stored? {
        values := values[opt := o.val];
        if o.changed {
          SetChanged(opt);
        }
      }
    }

    /** `set(opt, int)`. */
    method SetInt(opt: int, value: int)
      requires Valid()
      modifies this`values, this`changed, this`notifications
      ensures Valid()
      ensures Invalid(opt) ==> values == old(values) && changed == old(changed) && notifications == old(notifications)
      ensures !Invalid(opt) ==>
        var filled := Filled(old(values), options);
        var o := IntOutcome(options[opt], filled[opt], value);
        values == (if o.Stored? then filled[opt := o.val] else filled) &&
        changed == (if o.Stored? && o.changed then Set(old(changed), opt) else old(changed)) &&
        notifications == old(notifications) + if o.Stored? && o.changed && canNotify && !NonEmpty(old(changed)) then 1 else 0
    {
      if opt < 0 || opt >= |options| {
        return;
      }
      AddMissing();
      var o := IntOutcome(options[opt], values[opt], value);
      OutcomeConsistent(options[opt], values[opt], value, [], [], false);
      Commit(opt, o);
    }

    /** `set(opt, text, from_default)`. */
    method SetString(opt: int, value: seq<char>, fromDefault: bool)
      requires Valid()
      modifies this`values, this`changed, this`notifications
      ensures Valid()
      ensures Invalid(opt) ==> values == old(values) && changed == old(changed) && notifications == old(notifications)
      ensures !Invalid(opt) ==>
        var filled := Filled(old(values), options);
        var o := StringOutcome(options[opt], filled[opt], value, fromDefault);
        values == (if o.Stored? then filled[opt := o.val] else filled) &&
        changed == (if o.Stored? && o.changed then Set(old(changed), opt) else old(changed)) &&
        notifications == old(notifications) + if o.Stored? && o.changed && canNotify && !NonEmpty(old(changed)) then 1 else 0
    {
      if opt < 0 || opt >= |options| {
        return;
      }
      AddMissing();
      var o := StringOutcome(options[opt], values[opt], value, fromDefault);
      OutcomeConsistent(options[opt], values[opt], 0, value, [], fromDefault);
      Commit(opt, o);
    }

    /** `set(opt, xml)`, the document already copied from the node. */
    method SetXml(opt: int, value: seq<char>)
      requires Valid()
      modifies this`values, this`changed, this`notifications
      ensures Valid()
      ensures Invalid(opt) ==> values == old(values) && changed == old(changed) && notifications == old(notifications)
      ensures !Invalid(opt) ==>
        var filled := Filled(old(values), options);
        var o := XmlOutcome(options[opt], filled[opt], value);
        values == (if o.Stored? then filled[opt := o.val] else filled) &&
        changed == (if o.Stored? && o.changed then Set(old(changed), opt) else old(changed)) &&
        notifications == old(notifications) + if o.Stored? && o.changed && canNotify && !NonEmpty(old(changed)) then 1 else 0
    {
      if opt < 0 || opt >= |options| {
        return;
      }
      AddMissing();
      var o := XmlOutcome(options[opt], values[opt], value);
      OutcomeConsistent(options[opt], values[opt], 0, [], value, false);
      Commit(opt, o);
    }

    /**
     * `continue_notify_changed`: with changes pending, clear them and hand
     * every watcher the changed options it watches (all of them for a
     * watcher of everything), skipping watchers with nothing to hear.
     */
    method ContinueNotifyChanged() returns (deliveries: seq<(nat, Bits)>)
      modifies this`changed
      ensures !NonEmpty(old(changed)) ==> deliveries == [] && changed == old(changed)
      ensures NonEmpty(old(changed)) ==> deliveries == Deliveries(watchers, old(changed)) && changed == Bits([])
    {
      var pending := Any(changed);
      if !pending {
        return [];
      }
      var c := changed;
      changed := Bits([]);
      deliveries := [];
      for i := 0 to |watchers|
        invariant deliveries == Deliveries(watchers[..i], c)
        invariant changed == Bits([])
      {
        var w := watchers[i];
        var n := c;
        if !w.all {
          n := IntersectWith(n, w.options.words);
        }
        var some := Any(n);
        assert watchers[..i + 1][..i] == watchers[..i];
        if some {
          deliveries := deliveries + [(w.handler, n)];
        }
      }
      assert watchers[..|watchers|] == watchers;
    }

    /** `watch`: add the option to the handler's watcher, creating it if the handler has none. */
    method Watch(opt: int, handler: nat, hasNotifier: bool)
      requires Valid()
      modifies this`watchers
      ensures Valid()
      ensures handler == 0 || !hasNotifier || opt < 0 ==> watchers == old(watchers)
      ensures handler != 0 && hasNotifier && opt >= 0 ==>
        var k := FindWatcher(old(watchers), handler);
        watchers == if k >= 0 then old(watchers)[k := old(watchers)[k].(options := Set(old(watchers)[k].options, opt))]
                    else old(watchers) + [Watcher(handler, Set(Bits([]), opt), false)]
    {
      if handler == 0 || !hasNotifier || opt < 0 {
        return;
      }
      var k := IndexOfHandler(handler);
      if k >= 0 {
        watchers := watchers[k := watchers[k].(options := Set(watchers[k].options, opt))];
        return;
      }
      watchers := watchers + [Watcher(handler, Set(Bits([]), opt), false)];
    }

    /** `watch_all`: mark the handler's watcher as watching everything, creating it if needed. */
    method WatchAll(handler: nat)
      requires Valid()
      modifies this`watchers
      ensures Valid()
      ensures handler == 0 ==> watchers == old(watchers)
      ensures handler != 0 ==>
        var k := FindWatcher(old(watchers), handler);
        watchers == if k >= 0 then old(watchers)[k := old(watchers)[k].(all := true)]
                    else old(watchers) + [Watcher(handler, Bits([]), true)]
    {
      if handler == 0 {
        return;
      }
      var k := IndexOfHandler(handler);
      if k >= 0 {
        watchers := watchers[k := watchers[k].(all := true)];
        return;
      }
      watchers := watchers + [Watcher(handler, Bits([]), true)];
    }

    /**
     * `unwatch`: take the option out of the handler's watcher, and drop the
     * watcher once it watches nothing and not everything.
     */
    method Unwatch(opt: int, handler: nat)
      requires Valid()
      modifies this`watchers
      ensures Valid()
      ensures handler == 0 || opt < 0 || FindWatcher(old(watchers), handler) < 0 ==> watchers == old(watchers)
      ensures handler != 0 && opt >= 0 && FindWatcher(old(watchers), handler) >= 0 ==>
        var k := FindWatcher(old(watchers), handler);
        var w := old(watchers)[k].(options := Unset(old(watchers)[k].options, opt));
        watchers == if NonEmpty(w.options) || w.all then old(watchers)[k := w] else SwapRemove(old(watchers), k)
    {
      if handler == 0 || opt < 0 {
        return;
      }
      var k := IndexOfHandler(handler);
      if k < 0 {
        return;
      }
      var w := watchers[k].(options := Unset(watchers[k].options, opt));
      watchers := watchers[k := w];
      var some := Any(w.options);
      if some || w.all {
        return;
      }
      SwapRemoveUnique(old(watchers), k);
      watchers := SwapRemove(watchers, k);
      assert watchers == SwapRemove(old(watchers), k);
    }

    /** `unwatch_all`: drop the handler's watcher. */
    method UnwatchAll(handler: nat, hasNotifier: bool)
      requires Valid()
      modifies this`watchers
      ensures Valid()
      ensures handler == 0 || !hasNotifier || FindWatcher(old(watchers), handler) < 0 ==> watchers == old(watchers)
      ensures handler != 0 && hasNotifier && FindWatcher(old(watchers), handler) >= 0 ==>
        watchers == SwapRemove(old(watchers), FindWatcher(old(watchers), handler))
      ensures forall j :: 0 <= j < |watchers| ==> watchers[j].handler != handler || !hasNotifier
    {
      if handler == 0 || !hasNotifier {
        return;
      }
      var k := IndexOfHandler(handler);
      if k < 0 {
        return;
      }
      SwapRemoveUnique(watchers, k);
      watchers := SwapRemove(watchers, k);
    }

    /** The loop shared by the watch operations: the watcher of `handler`, or -1. */
    method IndexOfHandler(handler: nat) returns (k: int)
      ensures k == FindWatcher(watchers, handler)
    {
      for i := 0 to |watchers|
        invariant forall j :: 0 <= j < i ==> watchers[j].handler != handler
      {
        if watchers[i].handler == handler {
          FindFirst(watchers, handler, i);
          return i;
        }
      }
      return -1;
    }
  }

  lemma FindFirst(ws: seq<Watcher>, handler: nat, i: nat)
    requires i < |ws| && ws[i].handler == handler && forall j :: 0 <= j < i ==> ws[j].handler != handler
    ensures FindWatcher(ws, handler) == i
  {
  }

  /** After `watch`, the handler's watcher watches the option, and no handler has two watchers. */
  lemma WatchThenTest(ws: seq<Watcher>, handler: nat, opt: nat)
    requires UniqueHandlers(ws) && handler != 0
    ensures var k := FindWatcher(ws, handler);
            var ws' := if k >= 0 then ws[k := ws[k].(options := Set(ws[k].options, opt))]
                       else ws + [Watcher(handler, Set(Bits([]), opt), false)];
            UniqueHandlers(ws') && FindWatcher(ws', handler) >= 0 && Test(ws'[FindWatcher(ws', handler)].options, opt)
  {
    var k := FindWatcher(ws, handler);
    if k >= 0 {
      var ws' := ws[k := ws[k].(options := Set(ws[k].options, opt))];
      assert ws'[k].handler == handler;
      FindFirst(ws', handler, k);
      SetTest(ws[k].options, opt, opt);
    } else {
      var ws' := ws + [Watcher(handler, Set(Bits([]), opt), false)];
      assert ws'[|ws|].handler == handler;
      FindFirst(ws', handler, |ws|);
      SetTest(Bits([]), opt, opt);
    }
  }
}
