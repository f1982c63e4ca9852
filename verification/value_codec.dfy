/**
 * The value codec of an option field: how the per-choice `selected` flags
 * read out as the field's value (`getValue`) in each of its three shapes
 * (a dropdown's single key, a simple checkbox's boolean, a multi-checkbox's
 * key list) and how a value written with `setValue` sets the flags.
 */
module ValueCodec {
  import opened JsValues
  import opened ChoiceModel

  const Dropdown: Value := Str("dropdown")
  const Checkbox: Value := Str("checkbox")
  const Simple: Value := Str("simple")

  /** No two choices share a key. */
  predicate DistinctKeys(cs: seq<Choice>) {
    forall i, j :: 0 <= i < j < |cs| ==> cs[i].key != cs[j].key
  }

  /** Some choice has key `k`. */
  predicate HasKey(cs: seq<Choice>, k: string) {
    exists i :: 0 <= i < |cs| && cs[i].key == k
  }

  predicate AtMostOneSelected(cs: seq<Choice>) {
    forall i, j :: 0 <= i < |cs| && 0 <= j < |cs| && cs[i].selected && cs[j].selected ==> i == j
  }

  predicate NoneSelected(cs: seq<Choice>) {
    forall i :: 0 <= i < |cs| ==> !cs[i].selected
  }

  /** `a` and `b` list the same choices (keys, labels, conditions) in the same order; only flags may differ. */
  predicate SameShape(a: seq<Choice>, b: seq<Choice>) {
    |a| == |b| && forall i :: 0 <= i < |a| ==> a[i].(selected := false) == b[i].(selected := false)
  }

  // ---------------------------------------------------------------------------
  // getValue

  /** `i` is the first selected choice in declaration order. */
  predicate FirstSelectedAt(cs: seq<Choice>, i: int) {
    0 <= i < |cs| && cs[i].selected && forall j :: 0 <= j < i ==> !cs[j].selected
  }

  /** The dropdown reading: the key of the first selected choice, or `undefined`. */
  function FirstSelectedKey(cs: seq<Choice>): (r: Value)
    ensures r.Str? || r.Undefined?
    ensures r.Undefined? <==> NoneSelected(cs)
    ensures r.Str? ==> exists i :: FirstSelectedAt(cs, i) && r.s == cs[i].key
  {
    if |cs| == 0 then Undefined
    else if cs[0].selected then (assert FirstSelectedAt(cs, 0); Str(cs[0].key))
    else
      var r := FirstSelectedKey(cs[1..]);
      assert forall i :: 1 <= i < |cs| ==> cs[i] == cs[1..][i - 1];
      assert r.Str? ==> exists i :: FirstSelectedAt(cs[1..], i) && r.s == cs[1..][i].key;
      assert forall i :: FirstSelectedAt(cs[1..], i) ==> FirstSelectedAt(cs, i + 1);
      r
  }

  /** The multi-checkbox reading: the keys of the selected choices, in declaration order. */
  function SelectedKeys(cs: seq<Choice>): (r: seq<Value>)
    ensures |r| <= |cs|
    ensures forall v :: v in r <==> exists i :: 0 <= i < |cs| && cs[i].selected && v == Str(cs[i].key)
  {
    if |cs| == 0 then []
    else
      var rest := SelectedKeys(cs[1..]);
      assert forall i :: 1 <= i < |cs| ==> cs[i] == cs[1..][i - 1];
      if cs[0].selected then [Str(cs[0].key)] + rest else rest
  }

  /** The multi-checkbox reading of one choice: its key if it is selected, nothing otherwise. */
  lemma SelectedKeysOne(c: Choice)
    ensures SelectedKeys([c]) == if c.selected then [Str(c.key)] else []
  {
  }

  /**
   * The multi-checkbox reading of a concatenation is the concatenation of
   * the readings: with `SelectedKeysOne` this fixes the reading as one key
   * per selected choice, in declaration order.
   */
  lemma {:induction false} SelectedKeysAppend(a: seq<Choice>, b: seq<Choice>)
    ensures SelectedKeys(a + b) == SelectedKeys(a) + SelectedKeys(b)
  {
    if |a| > 0 {
      assert (a + b)[1..] == a[1..] + b;
      SelectedKeysAppend(a[1..], b);
    } else {
      assert a + b == b;
    }
  }

  /** The reading `getValue` is defined for: a simple checkbox has its synthetic choice. */
  predicate Readable(cs: seq<Choice>, format: Value, checkboxFormat: Value) {
    format == Checkbox && checkboxFormat == Simple ==> |cs| > 0
  }

  /** What `getValue` returns, by format; any format but dropdown and checkbox reads as `undefined`. */
  function Encoded(cs: seq<Choice>, format: Value, checkboxFormat: Value): (r: Value)
    requires Readable(cs, format, checkboxFormat)
    ensures format == Dropdown ==> r.Str? || r.Undefined?
    ensures format == Checkbox && checkboxFormat == Simple ==> r.Bool?
    ensures format == Checkbox && checkboxFormat != Simple ==> r.Arr? && |r.items| <= |cs|
    ensures format != Dropdown && format != Checkbox ==> r == Undefined
  {
    if format == Dropdown then FirstSelectedKey(cs)
    else if format == Checkbox then
      if checkboxFormat == Simple then Bool(cs[0].selected) else Arr(SelectedKeys(cs))
    else Undefined
  }

  // ---------------------------------------------------------------------------
  // setValue

  /** Whether `setValue(value)` leaves the choice with key `key` selected. */
  predicate Picks(format: Value, value: Value, key: string) {
    if value.Arr? && format == Checkbox then Includes(value.items, Str(key))
    else StrictEquals(Str(key), value)
  }

  /** The choice list after `setValue(value)`: every flag rewritten, nothing else touched. */
  function Assign(cs: seq<Choice>, format: Value, value: Value): (r: seq<Choice>)
    ensures |r| == |cs|
    ensures forall i :: 0 <= i < |cs| ==> r[i].(selected := false) == cs[i].(selected := false)
  {
    seq(|cs|, i requires 0 <= i < |cs| => cs[i].(selected := Picks(format, value, cs[i].key)))
  }

  /**
   * After `setValue(xs)` with an array on a checkbox field a choice is
   * selected iff its key is in `xs`; after any other `setValue(v)` iff its
   * key is `v` (so an unknown key, a boolean or an array on a dropdown
   * selects nothing).
   */
  lemma AssignSelects(cs: seq<Choice>, format: Value, value: Value)
    ensures |Assign(cs, format, value)| == |cs|
    ensures value.Arr? && format == Checkbox ==>
      forall i :: 0 <= i < |cs| ==> (Assign(cs, format, value)[i].selected <==> Str(cs[i].key) in value.items)
    ensures !(value.Arr? && format == Checkbox) ==>
      forall i :: 0 <= i < |cs| ==> (Assign(cs, format, value)[i].selected <==> value == Str(cs[i].key))
  {
    forall i | 0 <= i < |cs|
      ensures Picks(format, value, cs[i].key) <==>
        if value.Arr? && format == Checkbox then Str(cs[i].key) in value.items else value == Str(cs[i].key)
    {
      StrictEqualsIsScalarEquality(Str(cs[i].key), value);
      if value.Arr? {
        IncludesString(value.items, cs[i].key);
      }
    }
  }

  /** `setValue` changes no key, label, condition, position or length. */
  lemma AssignKeepsShape(cs: seq<Choice>, format: Value, value: Value)
    ensures SameShape(Assign(cs, format, value), cs)
  {
  }

  /** `setValue` does not depend on the previous selection: it rewrites every flag. */
  lemma AssignForgetsSelection(a: seq<Choice>, b: seq<Choice>, format: Value, value: Value)
    requires SameShape(a, b)
    ensures Assign(a, format, value) == Assign(b, format, value)
  {
    forall i | 0 <= i < |a|
      ensures Assign(a, format, value)[i] == Assign(b, format, value)[i]
    {
      assert a[i].(selected := false) == b[i].(selected := false);
      assert a[i].key == b[i].key;
    }
  }

  /** Writing the same value twice leaves the same flags as writing it once. */
  lemma AssignIdempotent(cs: seq<Choice>, format: Value, value: Value)
    ensures Assign(Assign(cs, format, value), format, value) == Assign(cs, format, value)
  {
    AssignKeepsShape(cs, format, value);
    AssignForgetsSelection(Assign(cs, format, value), cs, format, value);
  }

  /** Eligibility only reads conditions, so `setValue` never changes which choices are eligible. */
  lemma AssignKeepsEligibility(cs: seq<Choice>, format: Value, value: Value, resolver: Resolver)
    ensures forall i :: 0 <= i < |cs| ==>
      (Eligible(Assign(cs, format, value)[i], resolver) <==> Eligible(cs[i], resolver))
  {
  }

  // ---------------------------------------------------------------------------
  // Dropdown and scalar values

  /** With distinct keys a scalar `setValue` selects at most one choice. */
  lemma ScalarAssignSelectsAtMostOne(cs: seq<Choice>, format: Value, value: Value)
    requires DistinctKeys(cs)
    requires !(value.Arr? && format == Checkbox)
    ensures AtMostOneSelected(Assign(cs, format, value))
  {
    AssignSelects(cs, format, value);
  }

  /**
   * After a scalar `setValue(v)` the dropdown reading is `v` when some
   * choice has key `v`, and `undefined` otherwise (duplicate keys included).
   */
  lemma ScalarAssignReadsBack(cs: seq<Choice>, format: Value, value: Value)
    requires !(value.Arr? && format == Checkbox)
    ensures FirstSelectedKey(Assign(cs, format, value)) ==
      if value.Str? && HasKey(cs, value.s) then value else Undefined
  {
    var after := Assign(cs, format, value);
    AssignSelects(cs, format, value);
    var r := FirstSelectedKey(after);
    if value.Str? && HasKey(cs, value.s) {
      var k :| 0 <= k < |cs| && cs[k].key == value.s;
      assert after[k].selected;
      var i :| FirstSelectedAt(after, i) && r.s == after[i].key;
    }
  }

  /**
   * Writing back what a dropdown reads leaves its flags as they were, when
   * keys are distinct and at most one choice is selected.
   */
  lemma DropdownWriteBack(cs: seq<Choice>)
    requires DistinctKeys(cs) && AtMostOneSelected(cs)
    ensures Assign(cs, Dropdown, FirstSelectedKey(cs)) == cs
  {
    var v := FirstSelectedKey(cs);
    AssignSelects(cs, Dropdown, v);
    var after := Assign(cs, Dropdown, v);
    forall i | 0 <= i < |cs| ensures after[i] == cs[i] {
      if v.Str? {
        var k :| FirstSelectedAt(cs, k) && v.s == cs[k].key;
        assert after[i].selected <==> i == k;
      }
    }
  }

  // ---------------------------------------------------------------------------
  // Multi checkbox

  /** Reference reading: the keys of `cs` that occur in `xs`, in declaration order. */
  function KeysIn(cs: seq<Choice>, xs: seq<Value>): seq<Value> {
    if |cs| == 0 then []
    else (if Str(cs[0].key) in xs then [Str(cs[0].key)] else []) + KeysIn(cs[1..], xs)
  }

  /**
   * After `setValue(xs)` on a checkbox field the multi-checkbox reading is
   * the choices' keys filtered by membership in `xs`, in declaration order.
   */
  lemma {:induction false} MultiAssignReadsBack(cs: seq<Choice>, xs: seq<Value>)
    ensures SelectedKeys(Assign(cs, Checkbox, Arr(xs))) == KeysIn(cs, xs)
  {
    if |cs| > 0 {
      var after := Assign(cs, Checkbox, Arr(xs));
      assert after[1..] == Assign(cs[1..], Checkbox, Arr(xs));
      MultiAssignReadsBack(cs[1..], xs);
      IncludesString(xs, cs[0].key);
    }
  }

  /** Writing back what a multi checkbox reads leaves its flags as they were, when keys are distinct. */
  lemma MultiWriteBack(cs: seq<Choice>)
    requires DistinctKeys(cs)
    ensures Assign(cs, Checkbox, Arr(SelectedKeys(cs))) == cs
  {
    var keys := SelectedKeys(cs);
    AssignSelects(cs, Checkbox, Arr(keys));
    var after := Assign(cs, Checkbox, Arr(keys));
    forall i | 0 <= i < |cs| ensures after[i] == cs[i] {
      if Str(cs[i].key) in keys {
        var j :| 0 <= j < |cs| && cs[j].selected && Str(cs[i].key) == Str(cs[j].key);
        assert i == j;
      }
    }
  }

  // ---------------------------------------------------------------------------
  // Simple checkbox

  /**
   * A simple checkbox reads as its synthetic choice's flag: `setValue` with
   * its key or with an array holding its key turns it on, and any other
   * value, `true` and `false` included, turns it off.
   */
  lemma SimpleCheckboxReadsBack(cs: seq<Choice>, value: Value)
    requires |cs| > 0
    ensures Encoded(Assign(cs, Checkbox, value), Checkbox, Simple) ==
      Bool(if value.Arr? then Str(cs[0].key) in value.items else value == Str(cs[0].key))
    ensures value.Bool? ==> Encoded(Assign(cs, Checkbox, value), Checkbox, Simple) == Bool(false)
  {
    AssignSelects(cs, Checkbox, value);
  }

  /** A list with no selected choice reads as `undefined`, `false` or `[]`, by format. */
  lemma NothingSelectedReads(cs: seq<Choice>, format: Value, checkboxFormat: Value)
    requires NoneSelected(cs) && Readable(cs, format, checkboxFormat)
    ensures format == Dropdown ==> Encoded(cs, format, checkboxFormat) == Undefined
    ensures format == Checkbox && checkboxFormat == Simple ==> Encoded(cs, format, checkboxFormat) == Bool(false)
    ensures format == Checkbox && checkboxFormat != Simple ==> Encoded(cs, format, checkboxFormat) == Arr([])
  {
    if format == Checkbox && checkboxFormat != Simple && SelectedKeys(cs) != [] {
      assert SelectedKeys(cs)[0] in SelectedKeys(cs);
    }
  }
}
