# ConfigFactory in Dafny

ConfigFactory turns a settings class into a settings page. The model covers three parts of it:

- **`ConfigModule<T>`** is the base class of a settings class. It loads the module's values from a JSON file, or writes the defaults there on first run, and calls each property's `On{name}Changed` hook after loading. It saves the values and resets the shared instance from the saved file. It keeps a table of per-property validation rules and runs them in a validate-all pass that colours each checked property.
- **`ConfigFactory`** holds the ordered list of registered control builders. For every cataloged property of a module it asks the first builder that accepts the property's type for an editor. It files the item into the property's category and group, creating them when they are missing. The first group created on an otherwise empty page is selected. Items are indexed under `category/group/name`. The page's Save and Reset buttons are wired to the module, and the validation pass is then run against the page.
- **`NumericControlBuilder`** is the Avalonia builder for numbers. Its `IsValid` says which values it claims. Its `Build` makes a numeric up-down bound to the property, or defers to the dropdown builder, and `TryConvertToDecimal` converts the bounds of the property's numeric attribute.

Files:

- `types.dfy` (module `Types`): `Option`, `FirstIndex` (LINQ `FirstOrDefault` and lookup by a unique key), runtime types, boxed values (`Value`) and the property descriptor `ConfigProperty`.
- `config_module.dfy` (module `ConfigModules`): the `ConfigModule`, `FileSystem` and `ValidationSink` classes. Its `ValidateAll`, `Save`, `Load`, `Reset` and `AddRule` methods, and the module-level `RunPass`, `DefaultLoad`, `ReplayHooks` and `CopyCataloged`, are proved against the specification functions `TryAdd`, `Evaluate`, `Paints`, `Serialise`, `Deserialise`, `Snapshot`, `FilesAfterLoad`, `Replay` and `Overlay`. Lemmas about those functions follow.
- `config_factory.dfy` (module `ConfigFactory`): the `BuilderRegistry` and `ConfigPageModel` classes, and the `GetConfigGroup`, `PlaceProperty`, `PlaceEvery`, `Append` and `Build` methods. The methods are proved against the page functions `Locate`, `Place` and `PlaceAll`, and lemmas about those functions follow.
- `numeric_control_builder.dfy` (module `NumericControlBuilder`): `IsValid`, `ToDecimal`, `TryConvertToDecimal`, the `Build` method, and the finding about dispatch.

Conventions of the model:

- A concrete module type `T` is a `Schema`: the property catalog, the values `new T()` starts with, the rules T's constructor registers, the properties with a change hook and the file path. It also fixes T's overrides of `SuccessColor` and `FailureColor` (none: the base class's `#FF31C059` and `#FFE64032`), and `freshSaveAllowed`, what `OnSaving` answers on a fresh `new T()`. That answer is `true` unless T's constructor subscribes a vetoing handler.
- Property values are a map from name to `Value`.
- The JSON file is a `Document` holding exactly the serialised values.
- Raising `OnSave` is counted in `saveEvents`.
- The result of the `OnSaving` handlers is the `allowed` parameter of `Save`.
- Calls into a property's change hook are returned as a list of `HookCall`s.
- The current culture's decimal parser is the `parse` parameter.

Where the repository's prose and the code differ, the model follows the code:

- `GetConfigGroup` sets the selected group only when the page has exactly one category with exactly one group, and it never clears a selection. When a second group is added to the same category, the first group stays selected (`SecondGroupKeepsFirstSelected`).
- `ItemsMap` uses `TryAdd`, so the first item filed under a key keeps it (`PlaceAllIndexFirstWins`).
- `Validators` uses `TryAdd`, so the first rule for a property wins (`TryAddLookup`).
- The validate-all pass colours with the module's own `SuccessColor` and `FailureColor`, not with the per-rule colours.
- `Reset` writes the loaded values into `Shared`, not into the instance it is called on.

The model also rests on three readings of the code:

- `Append` line 57 uses an unbound `builder`. It is taken to be the first builder that accepts the type, the one line 54 finds.
- `module.Validate()` on line 68 is taken to be the validate-all pass.
- Creating a category or group with a `parent:` argument is taken to append it to that parent.

## Model

| member | source | states |
|---|---|---|
| ConfigModules.TryAddLookup | src/ConfigFactory.Core/ConfigModule.cs:88-89 | Adding a rule keeps rule keys unique. A property that already has a rule keeps it and the table is unchanged. A new property's rule is appended and is what a lookup of that name finds. Lookups of other names are unaffected. |
| ConfigModules.ConfigModule.AddRule | src/ConfigFactory.Core/ConfigModule.cs:83-93 | Validate<TProperty>: the table becomes TryAdd of the rule. With an interface attached, exactly one colour is reported for the property. It is the call's success colour (or the module's) when the predicate accepts the current value, and the failure colour (or the module's) otherwise. |
| ConfigModules.ConfigModule.constructor | src/ConfigFactory.Core/ConfigModule.cs:44-51 | `new T()` starts from the default values with the rules T's constructor registers, in TryAdd order, and with no validation interface. |
| ConfigModules.FirstStop | src/ConfigFactory.Core/ConfigModule.cs:117-127 | The index of the first rule whose property is missing from the catalog or whose predicate rejects the value. Every earlier rule passes. |
| ConfigModules.EvaluateAtFirstStop | src/ConfigFactory.Core/ConfigModule.cs:115-133 | The pass returns (true, "Validation Successful") when no rule stops it. Otherwise it returns KeyNotFound for an uncataloged property, or false with the first failing rule's message and property. |
| ConfigModules.PassedIffNoRuleStops | src/ConfigFactory.Core/ConfigModule.cs:115-133 | Validate returns true if and only if every rule's property is cataloged and every rule accepts its property's value. |
| ConfigModules.PaintsUpToFirstStop | src/ConfigFactory.Core/ConfigModule.cs:117-127 | The pass colours exactly the rules before the first stop with the success colour and the failing rule with the failure colour, in table order. Nothing after the failing rule is coloured. |
| ConfigModules.ValidateOutParameters | src/ConfigFactory.Core/ConfigModule.cs:115-133 | On true, the out message is "Validation Successful" and the target is empty. On false, the message is the first stopping rule's message, and the target is the cataloged property that rule names, whose value the rule rejects. |
| ConfigModules.RunPass | src/ConfigFactory.Core/ConfigModule.cs:117-132 | The loop over the rules returns the outcome Evaluate defines and reports exactly the colours Paints defines to the attached sink. |
| ConfigModules.ConfigModule.ValidateAll | src/ConfigFactory.Core/ConfigModule.cs:115-133 | The loop returns the outcome Evaluate defines. It reports to the attached interface exactly the colours Paints defines, using the module's SuccessColor and FailureColor. |
| ConfigModules.ConfigModule.Save | src/ConfigFactory.Core/ConfigModule.cs:105-113 | When OnSaving allows it, the serialised values replace the file at LocalPath and OnSave is raised once. Otherwise no file changes and no event is raised. |
| ConfigModules.SaveLoadRoundTrip | src/ConfigFactory.Core/ConfigModule.cs:58-64 | Loading after a save returns exactly the saved values and leaves the files as the save wrote them. |
| ConfigModules.DefaultLoad | src/ConfigFactory.Core/ConfigModule.cs:54-73 | The result has the rules of `new T()` and no interface. With no file, the defaults are returned and no hook runs. They are saved once when the fresh instance's OnSaving allows it; otherwise no file changes and OnSave is not raised. With a file, its values are deserialised, defaults fill missing fields, no file changes, and the change hooks are replayed in catalog order. |
| ConfigModules.ReplayHooks | src/ConfigFactory.Core/ConfigModule.cs:66-70 | The loop over the catalog calls exactly the hooks Replay defines, in catalog order, with the loaded values. |
| ConfigModules.ReplayCallsEachHookOnce | src/ConfigFactory.Core/ConfigModule.cs:66-70 | Each cataloged property that has an On{name}Changed hook has it called exactly once. No other name is called. |
| ConfigModules.ReplayCallsCarryLoadedValues | src/ConfigFactory.Core/ConfigModule.cs:66-70 | Every hook call is to a cataloged property that has a hook, and passes that property's loaded value. |
| ConfigModules.ConfigModule.Load | src/ConfigFactory.Core/ConfigModule.cs:53 | Load is DefaultLoad: a fresh module with the rules of `new T()` and no interface, holding the snapshot read from the files. The files become FilesAfterLoad. With no file, OnSave is raised once if OnSaving allows it and no hook runs. With a file, nothing is saved and the hooks are replayed as Replay defines. |
| ConfigModules.ConfigModule.Reset | src/ConfigFactory.Core/ConfigModule.cs:75-81 | Shared's cataloged properties take the loaded values and its other values stay. The files change only as DefaultLoad changes them. |
| ConfigModules.CopyCataloged | src/ConfigFactory.Core/ConfigModule.cs:78-80 | The copy loop leaves the target's values as Overlay defines. |
| ConfigModules.OverlayAt | src/ConfigFactory.Core/ConfigModule.cs:78-80 | After the copy loop, every cataloged key holds the snapshot's value, every other key keeps its value, and no key is added. |
| ConfigModules.ResetAfterSaveRestores | src/ConfigFactory.Core/ConfigModule.cs:75-81 | Reset after a save brings every cataloged property of Shared back to its saved value and leaves the rest untouched. |
| ConfigFactory.BuilderRegistry.Register | src/ConfigFactory/ConfigFactory.cs:80-83 | Registering appends the builder at the end of the list. |
| ConfigFactory.DispatchIsFirstMatch | src/ConfigFactory/ConfigFactory.cs:54 | The chosen builder accepts the type and no earlier builder does. No builder is chosen exactly when none accepts the type. |
| ConfigFactory.RegisterKeepsDispatch | src/ConfigFactory/ConfigFactory.cs:80-83 | Registering another builder never changes the choice for a type some earlier builder already accepts. |
| ConfigFactory.Locate | src/ConfigFactory/ConfigFactory.cs:91-108 | The returned category and group positions exist on the resulting page. |
| ConfigFactory.LocateStructure | src/ConfigFactory/ConfigFactory.cs:91-108 | The group found has the property's category and group ids. At most one category and one group are appended. No other category, item or index entry changes. The group is selected exactly when the page then has one category with one group; otherwise the selection is unchanged. |
| ConfigFactory.LocateNewPositions | src/ConfigFactory/ConfigFactory.cs:93-101 | Every category or group position that is new after the call carries the property's category and group ids. |
| ConfigFactory.LocateKeepsUniqueIds | src/ConfigFactory/ConfigFactory.cs:91-101 | An existing category or group with the property's id is reused, so category ids and group ids stay unique. |
| ConfigFactory.LocateExtends | src/ConfigFactory/ConfigFactory.cs:91-101 | Existing categories and groups keep their positions, ids and items. |
| ConfigFactory.LocateKeepsSelection | src/ConfigFactory/ConfigFactory.cs:91-105 | On a well-formed page, a selection after the call still names a group of the page. |
| ConfigFactory.LocateFacts | src/ConfigFactory/ConfigFactory.cs:91-108 | The page stays well formed and extends the old page. |
| ConfigFactory.GetConfigGroup | src/ConfigFactory/ConfigFactory.cs:91-108 | The page object after the call is the page Locate describes, and the returned indices name the located group. |
| ConfigFactory.AddItem | src/ConfigFactory/ConfigFactory.cs:62 | `group.Items.Add(item)`: the item is appended to the one group at the given position. All ids, titles and other groups' items are unchanged. |
| ConfigFactory.PlaceShape | src/ConfigFactory/ConfigFactory.cs:52-64 | One step of the loop keeps the page well formed and every category and group in place. It gives an accepted property its group and never clears the selection. A property no builder accepts changes nothing. |
| ConfigFactory.PlaceItems | src/ConfigFactory/ConfigFactory.cs:52-64 | One step appends the accepted property's item to exactly its own group and nowhere else. |
| ConfigFactory.PlaceAllShape | src/ConfigFactory/ConfigFactory.cs:52-65 | After the loop the page is well formed and earlier categories and groups are kept in place. A selection is kept. Every accepted property has its group on the page. |
| ConfigFactory.PlaceNewPositions | src/ConfigFactory/ConfigFactory.cs:52-62 | One step adds a category or group only for an accepted property, and with that property's ids. |
| ConfigFactory.PlaceAllNewGroupsFromProps | src/ConfigFactory/ConfigFactory.cs:52-65 | The converse of PlaceAllShape: every category and group the loop adds is named by some accepted property. |
| ConfigFactory.PlaceGrowth | src/ConfigFactory/ConfigFactory.cs:91-101 | One step appends at most one category and, to a category, at most one group, at the end. It does so only for an accepted property whose category or group the page lacked. |
| ConfigFactory.PlaceAllFirstSeenOrder | src/ConfigFactory/ConfigFactory.cs:52-65 | The loop creates categories, and groups within a category, in first-seen order. Each new category or group is named by an accepted property. Of two new ones, the earlier on the page is the one whose first accepted property comes earlier in the catalog, so groups declared [G2, G1, G2] come out [G2, G1]. |
| ConfigFactory.ContributedComesFromProps | src/ConfigFactory/ConfigFactory.cs:52-62 | Every item added to a group comes from an accepted property of that category and group. |
| ConfigFactory.PlaceAllItems | src/ConfigFactory/ConfigFactory.cs:52-65 | After the loop each group holds its old items followed by the items of the accepted properties filed under it, in catalog order. |
| ConfigFactory.PlaceIndexStep | src/ConfigFactory/ConfigFactory.cs:63 | One step adds the accepted property's key with its item when the key is new, and leaves every other entry alone. |
| ConfigFactory.PlaceAllIndexKeys | src/ConfigFactory/ConfigFactory.cs:63 | Keys already in ItemsMap keep their items. A new key appears exactly when some accepted property has it. |
| ConfigFactory.PlaceAllIndexFirstWins | src/ConfigFactory/ConfigFactory.cs:63 | A new key maps to the item of the first accepted property with that key; later properties never overwrite it. |
| ConfigFactory.SingleGroupIsSelected | src/ConfigFactory/ConfigFactory.cs:103-105 | If a page that received an item ends with one category holding one group, that group is the selected one. |
| ConfigFactory.SecondGroupKeepsFirstSelected | src/ConfigFactory/ConfigFactory.cs:103-105 | Two accepted properties in one category but different groups give one category with two groups, and the first group stays selected. |
| ConfigFactory.ConfigPageModel.constructor | src/ConfigFactory/ConfigFactory.cs:24 | A new page has no categories, no items, no selection and no button handlers. |
| ConfigFactory.PlaceProperty | src/ConfigFactory/ConfigFactory.cs:53-64 | One pass of the loop changes the page exactly as Place defines. |
| ConfigFactory.PlaceEvery | src/ConfigFactory/ConfigFactory.cs:52-65 | The loop changes the page exactly as PlaceAll defines. |
| ConfigFactory.Append | src/ConfigFactory/ConfigFactory.cs:38-71 | Save and Reset handlers for the module are added to the primary and secondary buttons. The page becomes PlaceAll of the module's catalog. A fresh validation interface receives exactly the colours of the validate-all pass, whose outcome is returned. |
| ConfigFactory.Build | src/ConfigFactory/ConfigFactory.cs:22-27 | A fresh page holding only this module's handlers and the items PlaceAll gives on an empty page. The module gets a fresh validation interface holding exactly the colours of the validate-all pass, whose outcome is returned. |
| NumericControlBuilder.IsValidIffBoxedNumber | src/ConfigFactory.Avalonia/Builders/NumericControlBuilder.cs:41-54 | IsValid holds exactly for boxed numbers of the eleven numeric types. It is false for null, booleans, strings, characters, Type objects and every other object. |
| NumericControlBuilder.TryConvertToDecimal | src/ConfigFactory.Avalonia/Builders/NumericControlBuilder.cs:56-66 | Returns true with Convert.ToDecimal's value when the conversion succeeds, and false with 0 when it throws. |
| NumericControlBuilder.ConversionOfAcceptedValues | src/ConfigFactory.Avalonia/Builders/NumericControlBuilder.cs:56-66 | Every number IsValid accepts that lies within the decimal range converts to itself. A string converts exactly when it parses to a number within range. Other objects and throwing conversions make TryConvertToDecimal return false. |
| NumericControlBuilder.Build | src/ConfigFactory.Avalonia/Builders/NumericControlBuilder.cs:14-39 | A dropdown attribute takes precedence. Otherwise the result is a numeric editor on the module, bound to the property's name. Each of minimum, maximum and increment is set from the numeric attribute exactly when that value converts, and then to the converted value. Without a numeric attribute none of them is set. |
| NumericControlBuilder.TypeObjectRejected | src/ConfigFactory/ConfigFactory.cs:54 | As written: IsValid of the Type object of any declared type is false. |
| NumericControlBuilder.AsWrittenPlacesNothing | src/ConfigFactory/ConfigFactory.cs:54 | As written: with the numeric builder as the only registered builder, the loop places no item for any catalog, int properties included. |
| NumericControlBuilder.AcceptsTypeMatchesIsValid | src/ConfigFactory.Avalonia/Builders/NumericControlBuilder.cs:41-54 | The corrected type test accepts a declared type exactly when IsValid accepts values whose runtime type it is. |
| NumericControlBuilder.CorrectedDispatch | src/ConfigFactory/ConfigFactory.cs:54 | With the corrected entry first, every numeric property is accepted and its item is built by the corrected entry's build function. With it alone, a property is accepted if and only if its type is numeric. |

## Left out

- Reflection (`ConfigProperties.Generate<T>`, `PropertyInfo.GetValue`/`SetValue`, `GetMethod`) is reduced to the catalog and the value map of a `Schema`. The attributes' own code is not part of this model.
- The JSON text format and its exceptions are not modelled. A malformed or unreadable config file, which makes `DefaultLoad` throw, is not modelled. The file is a document of field values.
- File and directory creation, `Environment` paths and `using` disposal are reduced to a map from path to document.
- The effects of a property's `On{name}Changed` hook are not modelled. The model records which hooks are called and with what value.
- The handlers attached to `OnSaving` and `OnSave` are not modelled. `Save` takes the veto as a parameter and counts `OnSave`. For the fresh instance `DefaultLoad` saves, the veto is the schema's `freshSaveAllowed`.
- `ObservableObject` change notifications and the `Shared` static property's lazy initialisation are not modelled.
- The handlers Append adds are Task-returning lambdas that call `Save`/`Reset` synchronously. They are recorded as `SaveHandler`/`ResetHandler` values and are not invoked.
- The page's `ValidationInterface` implementation and Avalonia's controls beyond the values Build sets (alignment, templates, layout) are not modelled. `DropdownBuilder.Build` is not part of this model. Its result is recorded with its arguments.
- The content a builder returns is a `build` function of the module and property. Other builders are not part of this model.
- `Translate` is modelled as its default, the identity. An override is not modelled.
- `Load`, `Save`, `Reset` and `Validate` are virtual. The model takes them as the base class defines them; overrides by a module type are not modelled.
- NumericControlBuilder.ToDecimal: float and double rounding to decimal precision, NaN and infinities are not modelled. Reals stand for all numbers. Enum and `IConvertible` objects other than the primitives are modelled as failing with InvalidCastException. Culture-specific string parsing is the `parse` parameter.
- Integer widths are not modelled. A value's type tag says which width it was boxed as.
- ConfigFactory.ItemKey: keys are joined with "/", so ids that contain "/" can collide. The model keeps that behaviour.
- `Validate<TProperty>` reads the property name out of an expression tree. The model takes the name directly.

## Findings

| source | as written | input that shows it | evidently intended | confidence | as-written member | corrected member |
|---|---|---|---|---|---|---|
| src/ConfigFactory/ConfigFactory.cs:54 | `x.IsValid(info.PropertyType)` hands the builder the property's `Type` object. NumericControlBuilder.IsValid (NumericControlBuilder.cs:41-54) tests the runtime type of a value, and a `Type` object's runtime type is `System.Type`. | A module with one `int` property and the numeric builder as the only registered builder: `IsValid(typeof(int))` is false, so no item is placed. | Ask whether the declared type is one of the eleven numeric types. | medium (not executed; the builders' base class is not part of this model) | NumericControlBuilder.TypeObjectRejected, NumericControlBuilder.AsWrittenPlacesNothing | NumericControlBuilder.AcceptsType, NumericControlBuilder.CorrectedDispatch |
