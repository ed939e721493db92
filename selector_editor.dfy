/** The selector option editor (SelectorEditor.jsx). A selector has a list of
    options, each with an `isDefault` check box, a `default` string and a
    type: in single mode the default is one option's name, in multi mode the
    comma-join of the default options' names. The handlers edit the options
    in place and keep the check boxes and the default string in step; the
    first edit also tells the parent that the selector is dirty. */
module SelectorEditing {
  import opened Wrappers
  import opened Texts

  datatype SelectorType = Single | Multi | Other(name: string)

  /** One option: the variable it names, when it is offered, and whether its
      default check box is ticked. */
  datatype Choice = Choice(option: string, allowed: string, isDefault: bool)

  function Names(options: seq<Choice>): (r: seq<string>)
    ensures |r| == |options|
    ensures forall i :: 0 <= i < |options| ==> r[i] == options[i].option
  {
    seq(|options|, i requires 0 <= i < |options| => options[i].option)
  }

  /** No two options name the same variable. */
  ghost predicate DistinctNames(options: seq<Choice>)
  {
    forall i, j :: 0 <= i < j < |options| ==> options[i].option != options[j].option
  }

  /** Every option names a variable, and no name holds a comma. */
  ghost predicate WellFormedNames(options: seq<Choice>)
  {
    forall i :: 0 <= i < |options| ==> options[i].option != "" && ',' !in options[i].option
  }

  // ---------------------------------------------------------------------------
  // Mounting: the check boxes are read off the default string

  /** Whether mounting ticks an option: in single mode when it is the
      default, in multi mode when it is one of the comma-separated defaults,
      otherwise as it was. */
  function TickedOnMount(c: Choice, t: SelectorType, default: string): bool
  {
    match t
    case Single => c.option == default
    case Multi => c.option in Split(default, ',')
    case Other(_) => c.isDefault
  }

  function Flagged(options: seq<Choice>, t: SelectorType, default: string): (r: seq<Choice>)
    ensures |r| == |options|
  {
    seq(|options|, i requires 0 <= i < |options| => options[i].(isDefault := TickedOnMount(options[i], t, default)))
  }

  /** The check boxes are what mounting would make of the default string. */
  ghost predicate Linked(options: seq<Choice>, t: SelectorType, default: string)
  {
    forall i :: 0 <= i < |options| ==> options[i].isDefault == TickedOnMount(options[i], t, default)
  }

  /** Mounting links the check boxes to the default string and changes
      nothing else about the options. */
  lemma MountLinks(options: seq<Choice>, t: SelectorType, default: string)
    ensures Linked(Flagged(options, t, default), t, default)
    ensures Names(Flagged(options, t, default)) == Names(options)
    ensures forall i :: 0 <= i < |options| ==> Flagged(options, t, default)[i].allowed == options[i].allowed
  {
  }

  /** `data.default.includes("{{")`. */
  predicate HasTemplate(s: string)
  {
    exists i :: 0 <= i < |s| - 1 && s[i] == '{' && s[i + 1] == '{'
  }

  // ---------------------------------------------------------------------------
  // The default string of a multi-select

  /** The names of the ticked options, in list order. */
  function DefaultNames(options: seq<Choice>): (r: seq<string>)
    ensures forall x :: x in r <==> exists i :: 0 <= i < |options| && options[i].isDefault && options[i].option == x
  {
    if |options| == 0 then []
    else
      var rest := DefaultNames(options[1..]);
      assert forall i :: 1 <= i < |options| ==> options[i] == options[1..][i - 1];
      if options[0].isDefault then [options[0].option] + rest else rest
  }

  /** `data.options.filter(o => o.isDefault).map(o => o.option).join()`. */
  function DefaultsJoined(options: seq<Choice>): string
  {
    Join(DefaultNames(options), ',')
  }

  /** With distinct, comma-free, non-empty names, storing the comma-join of
      the ticked options as the default keeps the check boxes linked to it:
      a remount would tick exactly the same options. */
  lemma JoinedDefaultsLink(options: seq<Choice>)
    requires DistinctNames(options) && WellFormedNames(options)
    ensures Linked(options, Multi, DefaultsJoined(options))
  {
    var names := DefaultNames(options);
    if |names| == 0 {
      assert Split("", ',') == [""];
    } else {
      assert SeparatorFree(names, ',') by {
        forall k | 0 <= k < |names| ensures ',' !in names[k] {
          assert names[k] in names;
        }
      }
      SplitJoin(names, ',');
    }
    forall i | 0 <= i < |options|
      ensures options[i].isDefault == TickedOnMount(options[i], Multi, DefaultsJoined(options))
    {
      if options[i].option in names {
        var j :| 0 <= j < |options| && options[j].isDefault && options[j].option == options[i].option;
        assert i == j;
      }
    }
  }

  // ---------------------------------------------------------------------------
  // setDefault

  /** Single mode, box ticked: exactly the options with the chosen name are
      ticked. */
  function Chosen(options: seq<Choice>, option: string): (r: seq<Choice>)
    ensures |r| == |options|
  {
    seq(|options|, i requires 0 <= i < |options| => options[i].(isDefault := options[i].option == option))
  }

  /** Ticking one option in single mode links the check boxes to its name. */
  lemma ChosenLinks(options: seq<Choice>, option: string)
    ensures Linked(Chosen(options, option), Single, option)
    ensures Names(Chosen(options, option)) == Names(options)
  {
  }

  /** The step of `Toggled` past an option of another name. */
  lemma ToggledCons(options: seq<Choice>, option: string, checked: bool, rest: seq<Choice>)
    requires |options| > 0 && options[0].option != option
    requires option in Names(options[1..]) ==>
      exists k :: 0 <= k < |options[1..]| && options[1..][k].option == option &&
        (forall j :: 0 <= j < k ==> options[1..][j].option != option) &&
        rest == options[1..][k := options[1..][k].(isDefault := checked)]
    ensures option in Names(options[1..]) ==>
      exists k :: 0 <= k < |options| && options[k].option == option &&
        (forall j :: 0 <= j < k ==> options[j].option != option) &&
        [options[0]] + rest == options[k := options[k].(isDefault := checked)]
  {
    if option in Names(options[1..]) {
      var k :| 0 <= k < |options[1..]| && options[1..][k].option == option &&
        (forall j :: 0 <= j < k ==> options[1..][j].option != option) &&
        rest == options[1..][k := options[1..][k].(isDefault := checked)];
      assert [options[0]] + rest == options[k + 1 := options[k + 1].(isDefault := checked)];
      assert forall j :: 0 < j < k + 1 ==> options[j] == options[1..][j - 1];
    }
  }

  /** Multi mode: `find` the first option with the name and set its box. */
  function Toggled(options: seq<Choice>, option: string, checked: bool): (r: seq<Choice>)
    ensures option !in Names(options) ==> r == options
    ensures option in Names(options) ==>
      exists k :: 0 <= k < |options| && options[k].option == option &&
        (forall j :: 0 <= j < k ==> options[j].option != option) &&
        r == options[k := options[k].(isDefault := checked)]
  {
    if |options| == 0 then []
    else if options[0].option == option then [options[0].(isDefault := checked)] + options[1..]
    else
      var rest := Toggled(options[1..], option, checked);
      assert Names(options) == [options[0].option] + Names(options[1..]);
      ToggledCons(options, option, checked, rest);
      [options[0]] + rest
  }

  /** Toggling in multi mode and storing the joined defaults keeps the link
      (names distinct, non-empty and comma-free). */
  lemma ToggledLinks(options: seq<Choice>, option: string, checked: bool)
    requires DistinctNames(options) && WellFormedNames(options)
    ensures Linked(Toggled(options, option, checked), Multi, DefaultsJoined(Toggled(options, option, checked)))
  {
    var r := Toggled(options, option, checked);
    assert forall i :: 0 <= i < |options| ==> r[i].option == options[i].option;
    JoinedDefaultsLink(r);
  }

  // ---------------------------------------------------------------------------
  // deleteOption

  function Removed(options: seq<Choice>, i: nat): (r: seq<Choice>)
    requires i < |options|
    ensures |r| == |options| - 1
    ensures forall j :: 0 <= j < |r| ==> r[j] == if j < i then options[j] else options[j + 1]
  {
    options[..i] + options[i + 1..]
  }

  predicate AnyDefault(options: seq<Choice>)
  {
    exists i :: 0 <= i < |options| && options[i].isDefault
  }

  /** With options left and none ticked, the first is ticked and becomes the
      default. */
  function Refilled(options: seq<Choice>, default: string): (seq<Choice>, string)
  {
    if |options| > 0 && !AnyDefault(options) then (options[0 := options[0].(isDefault := true)], options[0].option)
    else (options, default)
  }

  /** Deleting an option keeps the check boxes linked to the default string
      (names distinct, non-empty and comma-free), in either mode. */
  lemma DeleteKeepsLink(options: seq<Choice>, t: SelectorType, default: string, i: nat)
    requires i < |options| && DistinctNames(options) && WellFormedNames(options)
    requires Linked(options, t, default)
    ensures var (o, d) := Refilled(Removed(options, i), default); Linked(o, t, d)
  {
    var rest := Removed(options, i);
    if |rest| > 0 && !AnyDefault(rest) {
      var o := rest[0 := rest[0].(isDefault := true)];
      var d := rest[0].option;
      assert forall j :: 0 <= j < |rest| ==> rest[j].option != "" && ',' !in rest[j].option;
      SplitWord(d, ',');
      forall j | 0 <= j < |o| ensures o[j].isDefault == TickedOnMount(o[j], t, d) {
        if j > 0 {
          assert rest[j] == (if j < i then options[j] else options[j + 1]);
          assert rest[0] == (if 0 < i then options[0] else options[1]);
        }
      }
    }
  }

  /** The link is about the boxes only: a multi-select delete does not
      rebuild the default string, so "a,b" stays after "a" is deleted, while
      the ticked names now join to "b". */
  lemma DeleteKeepsStaleDefault()
    ensures var (o, d) := Refilled(Removed([Choice("a", "always", true), Choice("b", "always", true)], 0), "a,b");
      Linked(o, Multi, d) && d == "a,b" && DefaultsJoined(o) == "b"
  {
    var o := Removed([Choice("a", "always", true), Choice("b", "always", true)], 0);
    assert o == [Choice("b", "always", true)];
    assert AnyDefault(o) by { assert o[0].isDefault; }
    assert DefaultNames(o) == ["b"];
    SplitWord("b", ',');
    SplitAfterWord("a", ',', "b");
    assert "a" + [','] + "b" == "a,b";
  }

  // ---------------------------------------------------------------------------
  // handleTypeChange to single

  /** The options after switching to single mode: boxes up to and including
      the first ticked one are kept, every later box is cleared. `found`
      says whether a ticked box came before. */
  function KeepFirstDefault(options: seq<Choice>, found: bool): (r: seq<Choice>)
    ensures |r| == |options|
    ensures forall i :: 0 <= i < |options| ==> r[i].option == options[i].option && r[i].allowed == options[i].allowed
  {
    if |options| == 0 then []
    else if found then [options[0].(isDefault := false)] + KeepFirstDefault(options[1..], true)
    else [options[0]] + KeepFirstDefault(options[1..], options[0].isDefault)
  }

  /** The name of the first ticked option, if any. */
  function FirstDefault(options: seq<Choice>): Option<string>
  {
    if |options| == 0 then None
    else if options[0].isDefault then Some(options[0].option)
    else FirstDefault(options[1..])
  }

  /** One step of `KeepFirstDefault` and of `FirstDefault`. */
  lemma KeepFirstStep(options: seq<Choice>, found: bool)
    requires |options| > 0
    ensures KeepFirstDefault(options, found) ==
      [if found then options[0].(isDefault := false) else options[0]] + KeepFirstDefault(options[1..], found || options[0].isDefault)
    ensures FirstDefault(options) == if options[0].isDefault then Some(options[0].option) else FirstDefault(options[1..])
  {
  }

  /** What the loop of `handleTypeChange` knows after `i` options. */
  ghost predicate KeptSoFar(options: seq<Choice>, i: nat, kept: seq<Choice>, found: bool, first: Option<string>)
  {
    && i <= |options|
    && kept + KeepFirstDefault(options[i..], found) == KeepFirstDefault(options, false)
    && found == first.Some?
    && (found ==> first == FirstDefault(options))
    && (!found ==> FirstDefault(options) == FirstDefault(options[i..]))
  }

  lemma KeptSoFarStep(options: seq<Choice>, i: nat, kept: seq<Choice>, found: bool, first: Option<string>)
    requires i < |options| && KeptSoFar(options, i, kept, found, first)
    ensures var o := options[i];
      KeptSoFar(options, i + 1, kept + [if found then o.(isDefault := false) else o], found || o.isDefault,
                if found || !o.isDefault then first else Some(o.option))
  {
    var o := options[i];
    var o' := if found then o.(isDefault := false) else o;
    var rest := KeepFirstDefault(options[i + 1..], found || o.isDefault);
    assert options[i..][0] == o && options[i..][1..] == options[i + 1..];
    KeepFirstStep(options[i..], found);
    assert KeepFirstDefault(options[i..], found) == [o'] + rest;
    assert kept + [o'] + rest == kept + ([o'] + rest);
  }

  /** The loop of `handleTypeChange`: walk the options, keep the first ticked
      box and clear every later one, and remember the first ticked name. */
  method KeepFirst(options: seq<Choice>) returns (kept: seq<Choice>, first: Option<string>)
    ensures kept == KeepFirstDefault(options, false)
    ensures first == FirstDefault(options)
  {
    var found := false;
    kept := [];
    first := None;
    var i := 0;
    assert options[0..] == options;
    while i < |options|
      invariant KeptSoFar(options, i, kept, found, first)
    {
      KeptSoFarStep(options, i, kept, found, first);
      var o := options[i];
      if found {
        o := o.(isDefault := false);
      } else if o.isDefault {
        found := true;
        first := Some(o.option);
      }
      kept := kept + [o];
      i := i + 1;
    }
    assert options[i..] == [];
  }

  ghost predicate AtMostOneDefault(options: seq<Choice>)
  {
    forall i, j :: 0 <= i < j < |options| && options[i].isDefault ==> !options[j].isDefault
  }

  /** After the switch at most one box is ticked, and it is the first box
      that was ticked before. */
  lemma {:induction false} SingleSwitchKeepsFirst(options: seq<Choice>, found: bool)
    ensures var r := KeepFirstDefault(options, found);
      && AtMostOneDefault(r)
      && (found ==> forall i :: 0 <= i < |r| ==> !r[i].isDefault)
      && (!found ==> FirstDefault(r) == FirstDefault(options))
  {
    if |options| > 0 {
      SingleSwitchKeepsFirst(options[1..], found || options[0].isDefault);
      var r := KeepFirstDefault(options, found);
      var tail := KeepFirstDefault(options[1..], found || options[0].isDefault);
      assert r[1..] == tail;
      assert forall i :: 1 <= i < |r| ==> r[i] == tail[i - 1];
    }
  }

  /** With distinct names and a ticked box, switching to single mode and
      storing the first ticked name as the default leaves them linked. */
  lemma SingleSwitchLinks(options: seq<Choice>)
    requires DistinctNames(options) && FirstDefault(options).Some?
    ensures Linked(KeepFirstDefault(options, false), Single, FirstDefault(options).value)
  {
    var r := KeepFirstDefault(options, false);
    SingleSwitchKeepsFirst(options, false);
    var k := FirstDefaultAt(r);
    forall i | 0 <= i < |r| ensures r[i].isDefault == (r[i].option == FirstDefault(options).value) {
      if i != k {
        assert r[i].option != r[k].option by {
          assert options[i].option != options[k].option;
        }
      }
    }
  }

  /** The position of the first ticked option. */
  lemma {:induction false} FirstDefaultAt(options: seq<Choice>) returns (k: nat)
    requires FirstDefault(options).Some?
    ensures k < |options| && options[k].isDefault && options[k].option == FirstDefault(options).value
    ensures forall j :: 0 <= j < k ==> !options[j].isDefault
  {
    if options[0].isDefault {
      k := 0;
    } else {
      var k' := FirstDefaultAt(options[1..]);
      k := k' + 1;
    }
  }

  // ---------------------------------------------------------------------------
  // moveDown and addOption

  /** Options `i` and `i + 1` trade places. */
  function MovedDown(options: seq<Choice>, i: nat): (r: seq<Choice>)
    requires i + 1 < |options|
    ensures |r| == |options| && multiset(r) == multiset(options)
  {
    options[i := options[i + 1]][i + 1 := options[i]]
  }

  /** Moving the same option down twice puts it back, and a move keeps the
      link between the boxes and the default string. */
  lemma MoveDownTwice(options: seq<Choice>, i: nat, t: SelectorType, default: string)
    requires i + 1 < |options|
    ensures MovedDown(MovedDown(options, i), i) == options
    ensures Linked(options, t, default) ==> Linked(MovedDown(options, i), t, default)
  {
  }

  /** A variable the add button may offer: not private (`_…`) and not
      already an option. */
  predicate Offerable(v: string, used: seq<string>)
  {
    !(|v| > 0 && v[0] == '_') && v !in used
  }

  /** The step of `FreshVariable` past a variable that cannot be offered. */
  lemma FreshVariableCons(variables: seq<string>, used: seq<string>, r: string)
    requires |variables| > 0 && !Offerable(variables[0], used)
    requires (exists i :: 0 <= i < |variables[1..]| && Offerable(variables[1..][i], used)) ==>
      exists i :: 0 <= i < |variables[1..]| && variables[1..][i] == r && Offerable(r, used) &&
        forall j :: 0 <= j < i ==> !Offerable(variables[1..][j], used)
    ensures (exists i :: 0 <= i < |variables| && Offerable(variables[i], used)) ==>
      exists i :: 0 <= i < |variables| && variables[i] == r && Offerable(r, used) &&
        forall j :: 0 <= j < i ==> !Offerable(variables[j], used)
  {
    if exists i :: 0 <= i < |variables| && Offerable(variables[i], used) {
      var i :| 0 <= i < |variables| && Offerable(variables[i], used);
      assert Offerable(variables[1..][i - 1], used);
      var k :| 0 <= k < |variables[1..]| && variables[1..][k] == r && Offerable(r, used) &&
        forall j :: 0 <= j < k ==> !Offerable(variables[1..][j], used);
      assert variables[k + 1] == r;
      assert forall j :: 0 < j < k + 1 ==> variables[j] == variables[1..][j - 1];
    }
  }

  /** The first offerable variable, or "" when there is none. */
  function FreshVariable(variables: seq<string>, used: seq<string>): (r: string)
    ensures (forall i :: 0 <= i < |variables| ==> !Offerable(variables[i], used)) ==> r == ""
    ensures (exists i :: 0 <= i < |variables| && Offerable(variables[i], used)) ==>
      exists i :: 0 <= i < |variables| && variables[i] == r && Offerable(r, used) &&
        forall j :: 0 <= j < i ==> !Offerable(variables[j], used)
  {
    if |variables| == 0 then ""
    else if Offerable(variables[0], used) then variables[0]
    else
      var r := FreshVariable(variables[1..], used);
      assert forall i :: 1 <= i < |variables| ==> variables[i] == variables[1..][i - 1];
      FreshVariableCons(variables, used, r);
      r
  }

  // ---------------------------------------------------------------------------
  // The editor

  class SelectorEditor {
    var options: seq<Choice>
    var default: string
    var selectorType: SelectorType
    var name: string
    var title: string
    var isDirty: bool
    var showCustom: bool
    /** How many times the parent's `markAsDirty` has been called. */
    var notices: nat
    /** `Object.keys(variables)`, in order. */
    const variables: seq<string>
    /** Whether the parent passed `markAsDirty`. */
    const notifies: bool

    /** The parent hears of the first edit and only of that one. */
    ghost predicate Valid()
      reads this
    {
      notices == if isDirty && notifies then 1 else 0
    }

    /** `componentDidMount`: the check boxes are set from the default string,
        and the custom field shows when the default holds a template. */
    constructor (options: seq<Choice>, selectorType: SelectorType, default: string, name: string, title: string,
                 variables: seq<string>, notifies: bool)
      ensures Valid()
      ensures this.options == Flagged(options, selectorType, default)
      ensures this.selectorType == selectorType && this.default == default
      ensures this.name == name && this.title == title
      ensures showCustom == HasTemplate(default) && !isDirty
      ensures this.variables == variables && this.notifies == notifies
    {
      this.options := Flagged(options, selectorType, default);
      this.selectorType := selectorType;
      this.default := default;
      this.name := name;
      this.title := title;
      this.variables := variables;
      this.notifies := notifies;
      showCustom := HasTemplate(default);
      isDirty := false;
      notices := 0;
    }

    /** The tail of every handler: on the first edit tell the parent. */
    method Touch()
      requires Valid()
      modifies this
      ensures Valid() && isDirty
      ensures notices == old(notices) + (if !old(isDirty) && notifies then 1 else 0)
      ensures options == old(options) && default == old(default) && selectorType == old(selectorType)
      ensures name == old(name) && title == old(title) && showCustom == old(showCustom)
    {
      if !isDirty && notifies {
        notices := notices + 1;
      }
      isDirty := true;
    }

    /** `addOption`: append the first offerable variable (or "") with
        `allowed: "always"`, unticked. */
    method AddOption()
      requires Valid()
      modifies this
      ensures Valid() && isDirty
      ensures options == old(options) + [Choice(FreshVariable(variables, Names(old(options))), "always", false)]
      ensures default == old(default) && selectorType == old(selectorType) && showCustom == old(showCustom)
      ensures name == old(name) && title == old(title)
    {
      var option := FreshVariable(variables, Names(options));
      options := options + [Choice(option, "always", false)];
      Touch();
    }

    /** `chooseOption`: rename option `i`. */
    method ChooseOption(i: nat, value: string)
      requires Valid() && i < |options|
      modifies this
      ensures Valid() && isDirty
      ensures options == old(options)[i := old(options)[i].(option := value)]
      ensures default == old(default) && selectorType == old(selectorType)
      ensures name == old(name) && title == old(title) && showCustom == old(showCustom)
    {
      options := options[i := options[i].(option := value)];
      Touch();
    }

    /** `chooseAllowed`: set when option `i` is offered. */
    method ChooseAllowed(i: nat, value: string)
      requires Valid() && i < |options|
      modifies this
      ensures Valid() && isDirty
      ensures options == old(options)[i := old(options)[i].(allowed := value)]
      ensures default == old(default) && selectorType == old(selectorType)
      ensures name == old(name) && title == old(title) && showCustom == old(showCustom)
    {
      options := options[i := options[i].(allowed := value)];
      Touch();
    }

    /** `chooseCustom`: type a default by hand. */
    method ChooseCustom(value: string)
      requires Valid()
      modifies this
      ensures Valid() && isDirty
      ensures default == value && options == old(options) && selectorType == old(selectorType)
      ensures name == old(name) && title == old(title) && showCustom == old(showCustom)
    {
      default := value;
      Touch();
    }

    /** `setDefault`: in single mode a ticked box makes that option the one
        default; in multi mode the first option of that name takes the box's
        state and the default becomes the join of the ticked names. An
        unticked box in single mode changes no option. The custom field is
        hidden either way. */
    method SetDefault(option: string, checked: bool)
      requires Valid()
      modifies this
      ensures Valid() && isDirty && !showCustom && selectorType == old(selectorType)
      ensures name == old(name) && title == old(title)
      ensures selectorType == Single && checked ==> options == Chosen(old(options), option) && default == option
      ensures selectorType == Multi ==>
        options == Toggled(old(options), option, checked) && default == DefaultsJoined(options)
      ensures !(selectorType == Single && checked) && !selectorType.Multi? ==>
        options == old(options) && default == old(default)
    {
      if selectorType == Single && checked {
        options := Chosen(options, option);
        default := option;
      } else if selectorType.Multi? {
        options := Toggled(options, option, checked);
        default := DefaultsJoined(options);
      }
      Touch();
      showCustom := false;
    }

    /** `deleteOption`: remove option `i`; if options remain and none is
        ticked, tick the first and make it the default. */
    method DeleteOption(i: nat)
      requires Valid() && i < |options|
      modifies this
      ensures Valid() && isDirty && selectorType == old(selectorType)
      ensures (options, default) == Refilled(Removed(old(options), i), old(default))
      ensures name == old(name) && title == old(title) && showCustom == old(showCustom)
    {
      options := options[..i] + options[i + 1..];
      if |options| > 0 && !AnyDefault(options) {
        options := options[0 := options[0].(isDefault := true)];
        default := options[0].option;
      }
      Touch();
    }

    /** `handleTypeChange`: switching to single keeps only the first ticked
        box and makes its option the default (the default is untouched when
        no box is ticked); other types change only the type. */
    method HandleTypeChange(t: SelectorType)
      requires Valid()
      modifies this
      ensures Valid() && isDirty && selectorType == t
      ensures t == Single ==> options == KeepFirstDefault(old(options), false)
      ensures t == Single ==> default == (if FirstDefault(old(options)).Some? then FirstDefault(old(options)).value
                                          else old(default))
      ensures t != Single ==> options == old(options) && default == old(default)
      ensures name == old(name) && title == old(title) && showCustom == old(showCustom)
    {
      selectorType := t;
      if t == Single {
        var kept, first := KeepFirst(options);
        options := kept;
        if first.Some? {
          default := first.value;
        }
      }
      Touch();
    }

    /** `moveDown`: option `i` trades places with the next one; on the last
        option nothing happens, not even the dirty mark. */
    method MoveDown(i: nat)
      requires Valid() && i < |options|
      modifies this
      ensures Valid()
      ensures i == |old(options)| - 1 ==> options == old(options) && isDirty == old(isDirty) && notices == old(notices)
      ensures i < |old(options)| - 1 ==> options == MovedDown(old(options), i) && isDirty
      ensures default == old(default) && selectorType == old(selectorType)
      ensures name == old(name) && title == old(title) && showCustom == old(showCustom)
    {
      if i == |options| - 1 {
        return;
      }
      options := MovedDown(options, i);
      Touch();
    }

    /** `editName`. */
    method EditName(value: string)
      requires Valid()
      modifies this
      ensures Valid() && isDirty && name == value && options == old(options) && default == old(default)
      ensures title == old(title) && selectorType == old(selectorType) && showCustom == old(showCustom)
    {
      name := value;
      Touch();
    }

    /** `editLabel`: the selector's title. */
    method EditLabel(value: string)
      requires Valid()
      modifies this
      ensures Valid() && isDirty && title == value && options == old(options) && default == old(default)
      ensures name == old(name) && selectorType == old(selectorType) && showCustom == old(showCustom)
    {
      title := value;
      Touch();
    }

    /** `toggleCustom`: show or hide the hand-typed default; this is not an
        edit, so the dirty mark is left alone. */
    method ToggleCustom()
      requires Valid()
      modifies this
      ensures Valid() && showCustom == !old(showCustom) && isDirty == old(isDirty) && notices == old(notices)
      ensures options == old(options) && default == old(default) && selectorType == old(selectorType)
      ensures name == old(name) && title == old(title)
    {
      showCustom := !showCustom;
    }
  }
}
