/** ConfigModule<T>: the settings object itself, its table of validation
    rules, the validate-all pass that colours the editors, and the
    save / load / reset lifecycle against the config file. */
module ConfigModules {
  import opened Types

  /** The SuccessColor and FailureColor of a module that does not override them. */
  const DefaultSuccessColour: string := "#FF31C059"
  const DefaultFailureColour: string := "#FFE64032"

  /** The message a validate-all pass without a failure returns. */
  const SuccessMessage: string := "Validation Successful"

  /** One entry of the Validators dictionary: its key (a property name),
      the predicate and the optional failure message. */
  datatype Rule = Rule(name: string, check: Value -> bool, message: Option<string>)

  /** One call SetValidationColor(property, colour) on the validation interface. */
  datatype Paint = Paint(property: string, colour: string)

  /** One call of a property's On{name}Changed hook, with the value passed to it. */
  datatype HookCall = HookCall(property: string, value: Value)

  /** The serialised config file: one field per serialised property. */
  datatype Document = Document(fields: map<string, Value>)

  /** What the concrete module type T fixes: its name, where its file lives,
      its cataloged properties, the values `new T()` starts with, the rules
      its constructor registers, the properties that have an On{name}Changed
      hook, its overrides of SuccessColor / FailureColor (None: the base
      class's), and what OnSaving answers on a fresh `new T()` (true unless
      T's constructor subscribes a handler that vetoes). */
  datatype Schema = Schema(
    typeName: string,
    localPath: string,
    catalog: seq<ConfigProperty>,
    defaults: map<string, Value>,
    rules: seq<Rule>,
    hooks: set<string>,
    successOverride: Option<string>,
    failureOverride: Option<string>,
    freshSaveAllowed: bool)
  {
    /** SuccessColor: the override, or the base class's default. */
    function SuccessColour(): string {
      successOverride.GetOr(DefaultSuccessColour)
    }

    /** FailureColor: the override, or the base class's default. */
    function FailureColour(): string {
      failureOverride.GetOr(DefaultFailureColour)
    }

    /** Catalog names are unique, and every cataloged property and every
        property a rule names is a property of T. */
    ghost predicate Valid() {
      UniqueNames(catalog) &&
      (forall i :: 0 <= i < |catalog| ==> catalog[i].name in defaults) &&
      RuleNamesIn(rules, defaults.Keys)
    }
  }

  ghost predicate RuleNamesIn(rules: seq<Rule>, keys: set<string>) {
    forall i :: 0 <= i < |rules| ==> rules[i].name in keys
  }

  ghost predicate UniqueRules(rules: seq<Rule>) {
    forall i, j :: 0 <= i < j < |rules| ==> rules[i].name != rules[j].name
  }

  // ---------------------------------------------------------------------
  // The Validators dictionary

  /** Position of the rule stored under `name`. */
  function RuleFor(rules: seq<Rule>, name: string): Option<nat> {
    FirstIndex(rules, (r: Rule) => r.name == name)
  }

  /** Dictionary.TryAdd: a key already present keeps its entry. */
  function TryAdd(rules: seq<Rule>, r: Rule): seq<Rule> {
    if RuleFor(rules, r.name).Some? then rules else rules + [r]
  }

  /** The table after the rules in `regs` were registered one after another. */
  function RegisterAll(rules: seq<Rule>, regs: seq<Rule>): seq<Rule> {
    if regs == [] then rules
    else TryAdd(RegisterAll(rules, regs[..|regs| - 1]), regs[|regs| - 1])
  }

  /** TryAdd keeps the table a dictionary, and the table extended by it
      answers a lookup for the new key with the new rule and every other
      lookup as before. */
  lemma TryAddLookup(rules: seq<Rule>, r: Rule, name: string)
    requires UniqueRules(rules)
    ensures UniqueRules(TryAdd(rules, r))
    ensures RuleFor(rules, r.name).Some? ==> TryAdd(rules, r) == rules
    ensures RuleFor(rules, r.name).None? ==> TryAdd(rules, r) == rules + [r]
    ensures name == r.name && RuleFor(rules, name).None? ==>
              RuleFor(TryAdd(rules, r), name) == Some(|rules|)
    ensures name != r.name || RuleFor(rules, name).Some? ==>
              RuleFor(TryAdd(rules, r), name) == RuleFor(rules, name)
  {
    var after := TryAdd(rules, r);
    var p := (q: Rule) => q.name == name;
    if RuleFor(rules, r.name).None? {
      assert after[|rules|] == r;
      forall i | 0 <= i < |rules| ensures after[i] == rules[i] { }
      match RuleFor(rules, name)
      case Some(k) =>
        assert p(after[k]);
      case None =>
        if name == r.name {
          assert p(after[|rules|]);
        } else {
          assert forall j :: 0 <= j < |after| ==> !p(after[j]);
        }
    }
  }

  // ---------------------------------------------------------------------
  // The validate-all pass

  /** The result of Validate(out message, out target): true, false with the
      failing rule's message and property, or the KeyNotFoundException that
      `Properties[name]` throws for a rule whose property is not cataloged. */
  datatype Outcome =
    | Passed
    | Failed(message: Option<string>, target: ConfigProperty)
    | KeyNotFound(name: string)
  {
    /** The message returned beside true or false. */
    function Message(): Option<string>
      requires !KeyNotFound?
    {
      if Passed? then Some(SuccessMessage) else message
    }

    /** The target returned beside true or false; None is `new ConfigProperty()`. */
    function Target(): Option<ConfigProperty>
      requires !KeyNotFound?
    {
      if Passed? then None else Some(target)
    }
  }

  /** Whether evaluating `rule` ends the pass: its property is not cataloged
      or its predicate rejects the property's value. */
  predicate Stops(catalog: seq<ConfigProperty>, values: map<string, Value>, rule: Rule)
    requires rule.name in values
  {
    FindProperty(catalog, rule.name).None? || !rule.check(values[rule.name])
  }

  /** What the pass returns for the rules in table order. */
  function Evaluate(catalog: seq<ConfigProperty>, rules: seq<Rule>, values: map<string, Value>): Outcome
    requires RuleNamesIn(rules, values.Keys)
  {
    if rules == [] then Passed
    else match FindProperty(catalog, rules[0].name)
      case None => KeyNotFound(rules[0].name)
      case Some(k) =>
        if rules[0].check(values[rules[0].name]) then Evaluate(catalog, rules[1..], values)
        else Failed(rules[0].message, catalog[k])
  }

  /** The colours the pass reports, in order. */
  function Paints(catalog: seq<ConfigProperty>, rules: seq<Rule>, values: map<string, Value>,
                  success: string, failure: string): seq<Paint>
    requires RuleNamesIn(rules, values.Keys)
  {
    if rules == [] then []
    else match FindProperty(catalog, rules[0].name)
      case None => []
      case Some(_) =>
        if rules[0].check(values[rules[0].name])
        then [Paint(rules[0].name, success)] + Paints(catalog, rules[1..], values, success, failure)
        else [Paint(rules[0].name, failure)]
  }

  /** Index of the first rule that ends the pass, |rules| if none does. */
  function FirstStop(catalog: seq<ConfigProperty>, rules: seq<Rule>, values: map<string, Value>): (k: nat)
    requires RuleNamesIn(rules, values.Keys)
    ensures k <= |rules|
    ensures forall i :: 0 <= i < k ==> !Stops(catalog, values, rules[i])
    ensures k < |rules| ==> Stops(catalog, values, rules[k])
  {
    if rules == [] then 0
    else if Stops(catalog, values, rules[0]) then 0
    else 1 + FirstStop(catalog, rules[1..], values)
  }

  /** The pass returns what the first rule that ends it says: nothing ends
      it (true), its property is missing (the exception), or it fails
      (false, with that rule's message and property). */
  lemma {:induction false} EvaluateAtFirstStop(catalog: seq<ConfigProperty>, rules: seq<Rule>, values: map<string, Value>)
    requires RuleNamesIn(rules, values.Keys)
    ensures var k := FirstStop(catalog, rules, values);
      Evaluate(catalog, rules, values) ==
        if k == |rules| then Passed
        else match FindProperty(catalog, rules[k].name)
          case None => KeyNotFound(rules[k].name)
          case Some(j) => Failed(rules[k].message, catalog[j])
  {
    if rules != [] && !Stops(catalog, values, rules[0]) {
      EvaluateAtFirstStop(catalog, rules[1..], values);
    }
  }

  /** The pass returns true exactly when every rule's property is cataloged
      and every predicate holds, so an empty table passes. */
  lemma {:induction false} PassedIffNoRuleStops(catalog: seq<ConfigProperty>, rules: seq<Rule>, values: map<string, Value>)
    requires RuleNamesIn(rules, values.Keys)
    ensures Evaluate(catalog, rules, values).Passed? <==>
              forall i :: 0 <= i < |rules| ==> !Stops(catalog, values, rules[i])
  {
    EvaluateAtFirstStop(catalog, rules, values);
    var k := FirstStop(catalog, rules, values);
    if k < |rules| {
      assert Stops(catalog, values, rules[k]);
      match FindProperty(catalog, rules[k].name)
      case None =>
      case Some(j) =>
    }
  }

  /** The out-parameters of Validate: on success the success message and an
      empty target; on failure the message of the first rule that ends the
      pass, and the cataloged property that rule names, whose value that
      rule's predicate rejects. */
  lemma ValidateOutParameters(catalog: seq<ConfigProperty>, rules: seq<Rule>, values: map<string, Value>)
    requires RuleNamesIn(rules, values.Keys)
    ensures var r := Evaluate(catalog, rules, values);
      r.Passed? ==> r.Message() == Some(SuccessMessage) && r.Target() == None
    ensures var r := Evaluate(catalog, rules, values);
      var k := FirstStop(catalog, rules, values);
      r.Failed? ==>
        k < |rules| && r.Message() == rules[k].message &&
        r.Target().Some? && r.Target().value.name == rules[k].name &&
        !rules[k].check(values[rules[k].name])
  {
    EvaluateAtFirstStop(catalog, rules, values);
  }

  /** The pass colours every rule before the first one that ends it with the
      success colour, colours that one with the failure colour when its
      property is cataloged, and colours nothing after it. */
  lemma {:induction false} PaintsUpToFirstStop(catalog: seq<ConfigProperty>, rules: seq<Rule>, values: map<string, Value>,
                                               success: string, failure: string)
    requires RuleNamesIn(rules, values.Keys)
    ensures var k := FirstStop(catalog, rules, values);
      var n := if k < |rules| && FindProperty(catalog, rules[k].name).Some? then k + 1 else k;
      var ps := Paints(catalog, rules, values, success, failure);
      |ps| == n &&
      forall i :: 0 <= i < n ==> ps[i] == Paint(rules[i].name, if i < k then success else failure)
  {
    if rules != [] && !Stops(catalog, values, rules[0]) {
      var rest := rules[1..];
      PaintsUpToFirstStop(catalog, rest, values, success, failure);
      var k' := FirstStop(catalog, rest, values);
      var n' := if k' < |rest| && FindProperty(catalog, rest[k'].name).Some? then k' + 1 else k';
      var ps' := Paints(catalog, rest, values, success, failure);
      assert Paints(catalog, rules, values, success, failure) == [Paint(rules[0].name, success)] + ps';
      assert FirstStop(catalog, rules, values) == k' + 1;
      PaintsShift(rules, ps', k', n', success, failure);
    }
  }

  /** One success colour in front of the colours of the remaining rules. */
  lemma PaintsShift(rules: seq<Rule>, ps': seq<Paint>, k': nat, n': nat, success: string, failure: string)
    requires |rules| > 0 && |ps'| == n' && n' < |rules|
    requires forall i :: 0 <= i < n' ==> ps'[i] == Paint(rules[1..][i].name, if i < k' then success else failure)
    ensures forall i :: 0 <= i < n' + 1 ==>
              ([Paint(rules[0].name, success)] + ps')[i] == Paint(rules[i].name, if i < k' + 1 then success else failure)
  {
    forall i | 1 <= i < n' + 1
      ensures ([Paint(rules[0].name, success)] + ps')[i] == Paint(rules[i].name, if i < k' + 1 then success else failure)
    {
      assert rules[1..][i - 1] == rules[i];
    }
  }

  lemma AppendAssociative<T>(a: seq<T>, b: seq<T>, c: seq<T>)
    ensures a + (b + c) == (a + b) + c
  {
  }

  // ---------------------------------------------------------------------
  // The config file

  /** JsonSerializer.Serialize: every serialised property with its value. */
  function Serialise(values: map<string, Value>): Document {
    Document(values)
  }

  /** JsonSerializer.Deserialize<T>: a new T whose properties named in the
      document take the document's values; unknown fields are ignored and
      missing ones keep the default. */
  function Deserialise(schema: Schema, doc: Document): map<string, Value> {
    map k | k in schema.defaults :: if k in doc.fields then doc.fields[k] else schema.defaults[k]
  }

  /** The values DefaultLoad produces from the files it finds. */
  function Snapshot(schema: Schema, files: map<string, Document>): map<string, Value> {
    if schema.localPath in files then Deserialise(schema, files[schema.localPath]) else schema.defaults
  }

  /** The files after DefaultLoad: a missing config file is written with the
      defaults, unless the fresh instance's OnSaving vetoes the save. */
  function FilesAfterLoad(schema: Schema, files: map<string, Document>): map<string, Document> {
    if schema.localPath in files || !schema.freshSaveAllowed then files
    else files[schema.localPath := Serialise(schema.defaults)]
  }

  /** Reading back a saved module gives its values again. */
  lemma SaveLoadRoundTrip(schema: Schema, files: map<string, Document>, values: map<string, Value>)
    requires values.Keys == schema.defaults.Keys
    ensures Snapshot(schema, files[schema.localPath := Serialise(values)]) == values
    ensures FilesAfterLoad(schema, files[schema.localPath := Serialise(values)]) == files[schema.localPath := Serialise(values)]
  {
  }

  /** The hook calls DefaultLoad replays after deserialising, in catalog order. */
  function Replay(catalog: seq<ConfigProperty>, hooks: set<string>, values: map<string, Value>): seq<HookCall>
    requires forall i :: 0 <= i < |catalog| ==> catalog[i].name in values
  {
    if catalog == [] then []
    else
      var last := catalog[|catalog| - 1];
      Replay(catalog[..|catalog| - 1], hooks, values) +
      (if last.name in hooks then [HookCall(last.name, values[last.name])] else [])
  }

  function CallsTo(calls: seq<HookCall>, name: string): nat {
    if calls == [] then 0
    else CallsTo(calls[..|calls| - 1], name) + (if calls[|calls| - 1].property == name then 1 else 0)
  }

  lemma {:induction false} CallsToAppend(a: seq<HookCall>, b: seq<HookCall>, name: string)
    ensures CallsTo(a + b, name) == CallsTo(a, name) + CallsTo(b, name)
  {
    if b != [] {
      assert (a + b)[..|a + b| - 1] == a + b[..|b| - 1];
      CallsToAppend(a, b[..|b| - 1], name);
    } else {
      assert a + b == a;
    }
  }

  /** Each hook call DefaultLoad makes is to a cataloged property that has
      a hook, and carries that property's loaded value. */
  lemma {:induction false} ReplayCallsCarryLoadedValues(catalog: seq<ConfigProperty>, hooks: set<string>,
                                                        values: map<string, Value>)
    requires forall i :: 0 <= i < |catalog| ==> catalog[i].name in values
    ensures forall c :: c in Replay(catalog, hooks, values) ==>
              c.property in hooks && Cataloged(catalog, c.property) && c.value == values[c.property]
  {
    if catalog != [] {
      var init := catalog[..|catalog| - 1];
      ReplayCallsCarryLoadedValues(init, hooks, values);
      forall c | c in Replay(catalog, hooks, values)
        ensures c.property in hooks && Cataloged(catalog, c.property) && c.value == values[c.property]
      {
        if c in Replay(init, hooks, values) {
          var i :| 0 <= i < |init| && init[i].name == c.property;
          assert catalog[i].name == c.property;
        } else {
          assert catalog[|catalog| - 1].name == c.property;
        }
      }
    }
  }

  /** Each cataloged property that has a hook has it called exactly once,
      and no other name is called. */
  lemma {:induction false} ReplayCallsEachHookOnce(catalog: seq<ConfigProperty>, hooks: set<string>,
                                                   values: map<string, Value>, name: string)
    requires UniqueNames(catalog)
    requires forall i :: 0 <= i < |catalog| ==> catalog[i].name in values
    ensures CallsTo(Replay(catalog, hooks, values), name) ==
              if name in hooks && Cataloged(catalog, name) then 1 else 0
  {
    if catalog != [] {
      var init := catalog[..|catalog| - 1];
      var last := catalog[|catalog| - 1];
      ReplayCallsEachHookOnce(init, hooks, values, name);
      var tail := if last.name in hooks then [HookCall(last.name, values[last.name])] else [];
      CallsToAppend(Replay(init, hooks, values), tail, name);
      assert CallsTo(tail, name) == if last.name in hooks && last.name == name then 1 else 0 by {
        if tail != [] { assert tail[..0] == []; }
      }
      assert Cataloged(catalog, name) <==> Cataloged(init, name) || last.name == name by {
        if Cataloged(catalog, name) {
          var i :| 0 <= i < |catalog| && catalog[i].name == name;
          if i < |catalog| - 1 { assert init[i].name == name; }
        }
        if Cataloged(init, name) {
          var i :| 0 <= i < |init| && init[i].name == name;
          assert catalog[i].name == name;
        }
      }
      assert last.name == name ==> !Cataloged(init, name) by {
        if last.name == name {
          forall i | 0 <= i < |init| ensures init[i].name != name {
            assert catalog[i] == init[i];
          }
        }
      }
    }
  }

  /** Shared's values after Reset: each property of `props` takes its value
      from the snapshot, every other value stays. */
  function Overlay(values: map<string, Value>, props: seq<ConfigProperty>, snapshot: map<string, Value>): map<string, Value>
    requires forall i :: 0 <= i < |props| ==> props[i].name in snapshot
  {
    if props == [] then values
    else
      var last := props[|props| - 1];
      Overlay(values, props[..|props| - 1], snapshot)[last.name := snapshot[last.name]]
  }

  lemma {:induction false} OverlayAt(values: map<string, Value>, props: seq<ConfigProperty>, snapshot: map<string, Value>)
    requires forall i :: 0 <= i < |props| ==> props[i].name in snapshot && props[i].name in values
    ensures Overlay(values, props, snapshot).Keys == values.Keys
    ensures forall k :: k in values ==>
              Overlay(values, props, snapshot)[k] == if Cataloged(props, k) then snapshot[k] else values[k]
  {
    if props != [] {
      var init := props[..|props| - 1];
      OverlayAt(values, init, snapshot);
      forall k | k in values
        ensures Overlay(values, props, snapshot)[k] == if Cataloged(props, k) then snapshot[k] else values[k]
      {
        if Cataloged(init, k) {
          var i :| 0 <= i < |init| && init[i].name == k;
          assert props[i].name == k;
        }
        if Cataloged(props, k) && k != props[|props| - 1].name {
          var i :| 0 <= i < |props| && props[i].name == k;
          assert init[i].name == k;
        }
      }
    }
  }

  /** After a save, Reset brings every cataloged property of the shared
      instance back to its saved value and leaves the rest alone. */
  lemma ResetAfterSaveRestores(schema: Schema, files: map<string, Document>,
                               saved: map<string, Value>, current: map<string, Value>)
    requires schema.Valid()
    requires saved.Keys == schema.defaults.Keys && current.Keys == schema.defaults.Keys
    ensures var restored := Overlay(current, schema.catalog, Snapshot(schema, files[schema.localPath := Serialise(saved)]));
      restored.Keys == current.Keys &&
      forall k :: k in current ==> restored[k] == if Cataloged(schema.catalog, k) then saved[k] else current[k]
  {
    SaveLoadRoundTrip(schema, files, saved);
    OverlayAt(current, schema.catalog, saved);
  }

  // ---------------------------------------------------------------------
  // State

  /** The file system, reduced to the documents stored at each path. */
  class FileSystem {
    var files: map<string, Document>

    constructor (files: map<string, Document>)
      ensures this.files == files
    {
      this.files := files;
    }
  }

  /** The presentation layer's IValidationInterface: the colours it was told, in order. */
  class ValidationSink {
    var painted: seq<Paint>

    constructor ()
      ensures painted == []
    {
      painted := [];
    }

    method SetValidationColor(property: string, colour: string)
      modifies this
      ensures painted == old(painted) + [Paint(property, colour)]
    {
      painted := painted + [Paint(property, colour)];
    }
  }

  class ConfigModule {
    const schema: Schema
    /** The current value of every property of T. */
    var values: map<string, Value>
    /** The Validators dictionary, in insertion order. */
    var validators: seq<Rule>
    /** ValidationInterface; null until a page is assembled. */
    var validationInterface: ValidationSink?
    /** How often OnSave has been raised. */
    var saveEvents: nat

    ghost predicate Valid()
      reads this
    {
      schema.Valid() &&
      values.Keys == schema.defaults.Keys &&
      RuleNamesIn(validators, values.Keys) &&
      UniqueRules(validators)
    }

    /** `new T()`: default values, then the rules T's constructor registers,
        before any validation interface is attached. */
    constructor (schema: Schema)
      requires schema.Valid()
      ensures Valid() && this.schema == schema
      ensures values == schema.defaults
      ensures validators == RegisterAll([], schema.rules)
      ensures validationInterface == null && saveEvents == 0
    {
      this.schema := schema;
      values := schema.defaults;
      validators := [];
      validationInterface := null;
      saveEvents := 0;
      new;
      var i := 0;
      while i < |schema.rules|
        invariant 0 <= i <= |schema.rules|
        invariant Valid() && this.schema == schema && values == schema.defaults
        invariant validators == RegisterAll([], schema.rules[..i])
        invariant validationInterface == null && saveEvents == 0
      {
        var r := schema.rules[i];
        AddRule(r.name, r.check, r.message, None, None);
        assert schema.rules[..i + 1][..i] == schema.rules[..i];
        i := i + 1;
      }
      assert schema.rules[..i] == schema.rules;
    }

    /** Validate<TProperty>(property, validation, message, failureColour,
        successColour): store the rule unless the property already has one,
        and report the colour the passed predicate gives the current value. */
    method AddRule(name: string, check: Value -> bool, message: Option<string>,
                   failureColour: Option<string>, successColour: Option<string>)
      requires Valid() && name in values
      modifies this`validators, validationInterface
      ensures Valid()
      ensures validators == TryAdd(old(validators), Rule(name, check, message))
      ensures validationInterface != null ==>
                validationInterface.painted == old(validationInterface.painted) +
                  [Paint(name, if check(values[name]) then successColour.GetOr(schema.SuccessColour())
                               else failureColour.GetOr(schema.FailureColour()))]
    {
      TryAddLookup(validators, Rule(name, check, message), name);
      validators := TryAdd(validators, Rule(name, check, message));
      if validationInterface != null {
        var colour := if check(values[name]) then successColour.GetOr(schema.SuccessColour())
                      else failureColour.GetOr(schema.FailureColour());
        validationInterface.SetValidationColor(name, colour);
      }
    }

    /** Validate(out message, out target): evaluate the rules in table order,
        colouring each with the module's own colours, up to the first that
        ends the pass. */
    method ValidateAll() returns (r: Outcome)
      requires Valid()
      modifies validationInterface
      ensures r == Evaluate(schema.catalog, validators, values)
      ensures validationInterface != null ==>
                validationInterface.painted == old(validationInterface.painted) +
                  Paints(schema.catalog, validators, values, schema.SuccessColour(), schema.FailureColour())
    {
      r := RunPass(schema.catalog, validators, values, schema.SuccessColour(), schema.FailureColour(),
                   validationInterface);
    }

    /** Save: unless OnSaving vetoes (its last handler's result is `allowed`),
        write the serialised module to LocalPath, then raise OnSave. */
    method Save(allowed: bool, fs: FileSystem)
      requires Valid()
      modifies fs, this`saveEvents
      ensures allowed ==> fs.files == old(fs.files)[schema.localPath := Serialise(values)]
      ensures allowed ==> saveEvents == old(saveEvents) + 1
      ensures !allowed ==> fs.files == old(fs.files) && saveEvents == old(saveEvents)
    {
      if allowed {
        fs.files := fs.files[schema.localPath := Serialise(values)];
        saveEvents := saveEvents + 1;
      }
    }

    /** Load as the base class defines it: DefaultLoad. */
    method Load(fs: FileSystem) returns (config: ConfigModule, replayed: seq<HookCall>)
      requires Valid()
      modifies fs
      ensures fresh(config) && config.Valid() && config.schema == schema
      ensures config.validators == RegisterAll([], schema.rules) && config.validationInterface == null
      ensures config.values == Snapshot(schema, old(fs.files))
      ensures fs.files == FilesAfterLoad(schema, old(fs.files))
      ensures schema.localPath !in old(fs.files) ==>
                config.saveEvents == (if schema.freshSaveAllowed then 1 else 0) && replayed == []
      ensures schema.localPath in old(fs.files) ==>
                config.saveEvents == 0 && replayed == Replay(schema.catalog, schema.hooks, config.values)
    {
      config, replayed := DefaultLoad(schema, fs);
    }

    /** Reset: load the saved snapshot and copy every cataloged property
        from it into the shared instance (not into this one). */
    method Reset(shared: ConfigModule, fs: FileSystem)
      requires Valid() && shared.Valid() && shared.schema == schema
      modifies shared`values, fs
      ensures shared.Valid()
      ensures shared.values == Overlay(old(shared.values), schema.catalog, Snapshot(schema, old(fs.files)))
      ensures fs.files == FilesAfterLoad(schema, old(fs.files))
    {
      var config, _ := Load(fs);
      var loaded := config.values;
      assert loaded.Keys == schema.defaults.Keys;
      CopyCataloged(shared, schema.catalog, loaded);
      OverlayAt(old(shared.values), schema.catalog, loaded);
    }
  }

  /** The loop of Reset: each cataloged property of `target` takes its value
      in `snapshot`, in catalog order. */
  method CopyCataloged(target: ConfigModule, catalog: seq<ConfigProperty>, snapshot: map<string, Value>)
    requires forall i :: 0 <= i < |catalog| ==> catalog[i].name in snapshot
    modifies target`values
    ensures target.values == Overlay(old(target.values), catalog, snapshot)
  {
    var i := 0;
    while i < |catalog|
      invariant 0 <= i <= |catalog|
      invariant target.values == Overlay(old(target.values), catalog[..i], snapshot)
    {
      var name := catalog[i].name;
      assert catalog[..i + 1][..i] == catalog[..i];
      target.values := target.values[name := snapshot[name]];
      i := i + 1;
    }
    assert catalog[..i] == catalog;
  }

  /** The loop of Validate(out message, out target) over the rules in table
      order, reporting each colour to `sink` when one is attached. */
  method RunPass(catalog: seq<ConfigProperty>, rules: seq<Rule>, vals: map<string, Value>,
                 success: string, failure: string, sink: ValidationSink?) returns (r: Outcome)
    requires RuleNamesIn(rules, vals.Keys)
    modifies sink
    ensures r == Evaluate(catalog, rules, vals)
    ensures sink != null ==> sink.painted == old(sink.painted) + Paints(catalog, rules, vals, success, failure)
  {
    ghost var done: seq<Paint> := [];
    var rest := rules;
    while rest != []
      invariant RuleNamesIn(rest, vals.Keys)
      invariant Evaluate(catalog, rules, vals) == Evaluate(catalog, rest, vals)
      invariant Paints(catalog, rules, vals, success, failure) == done + Paints(catalog, rest, vals, success, failure)
      invariant sink != null ==> sink.painted == old(sink.painted) + done
      decreases |rest|
    {
      var rule := rest[0];
      assert rule.name in vals;
      var k := FindProperty(catalog, rule.name);
      if k.None? {
        assert done + [] == done;
        r := KeyNotFound(rule.name);
        return;
      }
      var isValid := rule.check(vals[rule.name]);
      var colour := if isValid then success else failure;
      if sink != null {
        sink.SetValidationColor(rule.name, colour);
      }
      ghost var before := done;
      done := done + [Paint(rule.name, colour)];
      if sink != null {
        AppendAssociative(old(sink.painted), before, [Paint(rule.name, colour)]);
      }
      if !isValid {
        assert done + [] == done;
        r := Failed(rule.message, catalog[k.value]);
        return;
      }
      AppendAssociative(before, [Paint(rule.name, colour)], Paints(catalog, rest[1..], vals, success, failure));
      rest := rest[1..];
    }
    r := Passed;
  }

  /** DefaultLoad: with no file at LocalPath, a default instance that is
      saved at once, unless its own OnSaving vetoes; otherwise the
      deserialised file, after each cataloged property's change hook has
      been called with its loaded value. */
  method DefaultLoad(schema: Schema, fs: FileSystem) returns (config: ConfigModule, replayed: seq<HookCall>)
    requires schema.Valid()
    modifies fs
    ensures fresh(config) && config.Valid() && config.schema == schema
    ensures config.validators == RegisterAll([], schema.rules) && config.validationInterface == null
    ensures schema.localPath !in old(fs.files) ==>
              config.values == schema.defaults && replayed == [] &&
              (schema.freshSaveAllowed ==>
                 fs.files == old(fs.files)[schema.localPath := Serialise(schema.defaults)] &&
                 config.saveEvents == 1) &&
              (!schema.freshSaveAllowed ==> fs.files == old(fs.files) && config.saveEvents == 0)
    ensures schema.localPath in old(fs.files) ==>
              config.values == Deserialise(schema, old(fs.files)[schema.localPath]) &&
              fs.files == old(fs.files) &&
              config.saveEvents == 0 &&
              replayed == Replay(schema.catalog, schema.hooks, config.values)
  {
    config := new ConfigModule(schema);
    if schema.localPath !in fs.files {
      config.Save(schema.freshSaveAllowed, fs);
      replayed := [];
      return;
    }
    config := new ConfigModule(schema);
    config.values := Deserialise(schema, fs.files[schema.localPath]);
    replayed := ReplayHooks(schema.catalog, schema.hooks, config.values);
  }

  /** The loop of DefaultLoad over the cataloged properties: each one with an
      On{name}Changed hook has it called with its loaded value. */
  method ReplayHooks(catalog: seq<ConfigProperty>, hooks: set<string>, values: map<string, Value>)
    returns (replayed: seq<HookCall>)
    requires forall i :: 0 <= i < |catalog| ==> catalog[i].name in values
    ensures replayed == Replay(catalog, hooks, values)
  {
    replayed := [];
    var i := 0;
    while i < |catalog|
      invariant 0 <= i <= |catalog|
      invariant replayed == Replay(catalog[..i], hooks, values)
    {
      var name := catalog[i].name;
      assert catalog[..i + 1][..i] == catalog[..i];
      if name in hooks {
        replayed := replayed + [HookCall(name, values[name])];
      }
      i := i + 1;
    }
    assert catalog[..i] == catalog;
  }
}
