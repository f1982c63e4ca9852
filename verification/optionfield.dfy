/**
 * The option field itself: its choice list, built once by `Init` and
 * afterwards changed only in its `selected` flags by `SetValue`, and the
 * read-only operations `GetValue` and `ShouldDisplay`.
 */
module OptionfieldElement {
  import opened JsValues
  import opened ChoiceModel
  import opened ValueCodec

  /** The `args` bag `init` receives; `choices` and `format` may be omitted. */
  datatype Args = Args(choices: Option<seq<ChoiceDef>>, format: Option<string>)

  /** The choice entries after defaulting: an omitted `choices` is `[]`. */
  function ChoicesOrDefault(args: Args): seq<ChoiceDef> {
    if args.choices.Some? then args.choices.value else []
  }

  /** The format after defaulting: an omitted `format` is `'dropdown'`. */
  function FormatOrDefault(args: Args): string {
    if args.format.Some? then args.format.value else "dropdown"
  }

  class Optionfield {
    /** The normalised choices, in declaration order. */
    var choices: seq<Choice>
    /** The value the view binds to a dropdown or simple checkbox. */
    var selectedChoice: Value
    /** `'dropdown'` or `'checkbox'` once initialised. */
    var format: Value
    /** `'simple'` once a field without declared choices has been initialised, `undefined` before. */
    var checkboxFormat: Value

    /** A field in simple-checkbox mode always has its synthetic choice. */
    ghost predicate Valid()
      reads this
    {
      Readable(choices, format, checkboxFormat)
    }

    constructor()
      ensures Valid()
      ensures choices == [] && selectedChoice == Str("")
      ensures format == Undefined && checkboxFormat == Undefined
    {
      choices := [];
      selectedChoice := Str("");
      format := Undefined;
      checkboxFormat := Undefined;
    }

    /**
     * Builds the choice list from the schema entries, falling back to a
     * single synthetic choice (and simple-checkbox mode) when there are
     * none; `fieldKey` is the field's own key. The base field's
     * initialisation is represented only by its storing the format.
     */
    method Init(fieldKey: string, args: Args)
      modifies this
      ensures Valid()
      ensures choices == Normalised(ChoicesOrDefault(args), fieldKey)
      ensures checkboxFormat == if |ChoicesOrDefault(args)| == 0 then Simple else old(checkboxFormat)
      ensures format == Str(FormatOrDefault(args))
      ensures selectedChoice == old(selectedChoice)
    {
      var defs := ChoicesOrDefault(args);
      choices := [];
      for i := 0 to |defs|
        invariant |choices| == i
        invariant forall j :: 0 <= j < i ==> choices[j] == Normalise(defs[j])
        invariant checkboxFormat == old(checkboxFormat) && selectedChoice == old(selectedChoice)
      {
        var def := defs[i];
        if def.Plain? {
          choices := choices + [Choice(def.name, def.name, false, [])];
        } else {
          var shown := if def.labelText.Some? && def.labelText.value != "" then def.labelText.value else def.key;
          choices := choices + [Choice(def.key, shown, false, def.conditions)];
        }
      }
      if |choices| == 0 {
        choices := choices + [Choice(fieldKey, "", false, [])];
        checkboxFormat := Simple;
      }
      format := Str(FormatOrDefault(args));
    }

    /**
     * Whether the field is shown: only if some choice is eligible, and then
     * as the base field's own policy `baseShouldDisplay` says.
     */
    method ShouldDisplay(resolver: Resolver, baseShouldDisplay: bool) returns (shown: bool)
      ensures shown <==> SomeEligible(choices, resolver) && baseShouldDisplay
      ensures !SomeEligible(choices, resolver) ==> !shown
    {
      for i := 0 to |choices|
        invariant forall j :: 0 <= j < i ==> !Eligible(choices[j], resolver)
      {
        if Eligible(choices[i], resolver) {
          return baseShouldDisplay;
        }
      }
      return false;
    }

    /**
     * The field's value: the first selected key for a dropdown, the flag of
     * the synthetic choice for a simple checkbox, the selected keys in
     * declaration order for a multi checkbox, `undefined` for any other format.
     */
    method GetValue() returns (v: Value)
      requires Valid()
      ensures v == Encoded(choices, format, checkboxFormat)
    {
      if format == Dropdown {
        for i := 0 to |choices|
          invariant forall j :: 0 <= j < i ==> !choices[j].selected
        {
          if choices[i].selected {
            assert FirstSelectedAt(choices, i);
            return Str(choices[i].key);
          }
        }
        return Undefined;
      } else if format == Checkbox {
        if checkboxFormat == Simple {
          return Bool(choices[0].selected);
        }
        var chosen := [];
        for i := 0 to |choices|
          invariant SelectedKeys(choices) == chosen + SelectedKeys(choices[i..])
        {
          assert choices[i..][1..] == choices[i + 1..];
          if choices[i].selected {
            chosen := chosen + [Str(choices[i].key)];
          }
        }
        return Arr(chosen);
      }
      return Undefined;
    }

    /**
     * Writes the field's value: with an array on a checkbox field each
     * choice becomes selected iff its key is in the array, otherwise iff its
     * key is strictly equal to `value`. Only the flags change.
     */
    method SetValue(value: Value)
      modifies this`choices
      ensures choices == Assign(old(choices), format, value)
      ensures Valid() <==> old(Valid())
    {
      ghost var after := Assign(choices, format, value);
      if value.Arr? && format == Checkbox {
        for i := 0 to |choices|
          invariant |choices| == |after|
          invariant forall j :: 0 <= j < i ==> choices[j] == after[j]
          invariant forall j :: i <= j < |choices| ==> choices[j] == old(choices)[j]
        {
          if Includes(value.items, Str(choices[i].key)) {
            choices := choices[i := choices[i].(selected := true)];
          } else if choices[i].selected {
            choices := choices[i := choices[i].(selected := false)];
          }
        }
      } else {
        for i := 0 to |choices|
          invariant |choices| == |after|
          invariant forall j :: 0 <= j < i ==> choices[j] == after[j]
          invariant forall j :: i <= j < |choices| ==> choices[j] == old(choices)[j]
        {
          if StrictEquals(Str(choices[i].key), value) {
            choices := choices[i := choices[i].(selected := true)];
          } else if choices[i].selected {
            choices := choices[i := choices[i].(selected := false)];
          }
        }
      }
    }

    /** The binding hook: a new `selectedChoice` is written with `SetValue`. */
    method SelectedChoiceChanged()
      modifies this`choices
      ensures choices == Assign(old(choices), format, selectedChoice)
      ensures Valid() <==> old(Valid())
    {
      SetValue(selectedChoice);
    }
  }

  /**
   * A field initialised with at least one plain-string entry, or with none
   * (the synthetic toggle), always has an eligible choice, so its visibility
   * is the base policy's.
   */
  lemma InitialisedWithUnconditionalChoice(defs: seq<ChoiceDef>, fieldKey: string, resolver: Resolver)
    requires |defs| == 0 || exists i :: 0 <= i < |defs| && defs[i].Plain?
    ensures SomeEligible(Normalised(defs, fieldKey), resolver)
  {
    var cs := Normalised(defs, fieldKey);
    if |defs| == 0 {
      NormalisedEmpty(fieldKey, resolver);
      assert Eligible(cs[0], resolver);
    } else {
      var i :| 0 <= i < |defs| && defs[i].Plain?;
      NormalisedEntries(defs, fieldKey, resolver);
      assert Eligible(cs[i], resolver);
    }
  }

  /** A schema of plain colours on a dropdown: a known key reads back, an unknown one clears the field. */
  method DropdownScenario()
  {
    var defs := [Plain("red"), Plain("green")];
    var field := new Optionfield();
    field.Init("colour", Args(Some(defs), None));
    assert field.format == Dropdown;
    var cs := field.choices;
    assert HasKey(cs, "green") by { assert cs[1].key == "green"; }
    field.SetValue(Str("green"));
    ScalarAssignReadsBack(cs, Dropdown, Str("green"));
    var v := field.GetValue();
    assert v == Str("green");
    field.SetValue(Str("blue"));
    AssignKeepsShape(cs, Dropdown, Str("green"));
    AssignForgetsSelection(field.choices, cs, Dropdown, Str("blue")) by {
      AssignKeepsShape(cs, Dropdown, Str("green"));
    }
    ScalarAssignReadsBack(cs, Dropdown, Str("blue"));
    v := field.GetValue();
    assert v == Undefined;
  }

  /** Three checkboxes: writing `['a', 'c']` reads back as `['a', 'c']`. */
  method MultiCheckboxScenario()
  {
    var field := new Optionfield();
    field.Init("letters", Args(Some([Plain("a"), Plain("b"), Plain("c")]), Some("checkbox")));
    var cs := field.choices;
    assert cs == [Choice("a", "a", false, []), Choice("b", "b", false, []), Choice("c", "c", false, [])];
    var xs := [Str("a"), Str("c")];
    assert KeysIn(cs, xs) == [Str("a"), Str("c")] by {
      assert cs[1..][1..] == [cs[2]] && [cs[2]][1..] == [];
      assert Str("b") !in xs;
      assert KeysIn([cs[2]], xs) == [Str("c")];
      assert KeysIn(cs[1..], xs) == [Str("c")];
    }
    field.SetValue(Arr([Str("a"), Str("c")]));
    MultiAssignReadsBack(cs, [Str("a"), Str("c")]);
    var v := field.GetValue();
    assert v == Arr([Str("a"), Str("c")]);
  }
}
