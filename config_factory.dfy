/** ConfigFactory: the builder registry and the assembly of a config page
    (categories, groups, items and the item index) from a module's catalog. */
module ConfigFactory {
  import opened Types
  import opened ConfigModules

  /** One registered IControlBuilder: its IsValid test, asked about a
      property's declared type, and its Build. */
  datatype Builder = Builder(isValid: ClrType -> bool, build: (ConfigModule, ConfigProperty) -> Value)

  /** The static `_builders` list. */
  class BuilderRegistry {
    var builders: seq<Builder>

    constructor ()
      ensures builders == []
    {
      builders := [];
    }

    /** Register: the builder goes to the end; earlier ones keep their order. */
    method Register(builder: Builder)
      modifies this
      ensures builders == old(builders) + [builder]
    {
      builders := builders + [builder];
    }
  }

  /** The builder `_builders.FirstOrDefault(x => x.IsValid(type))` picks. */
  function FirstAccepting(builders: seq<Builder>, t: ClrType): Option<nat> {
    FirstIndex(builders, (b: Builder) => b.isValid(t))
  }

  predicate Accepts(builders: seq<Builder>, p: ConfigProperty) {
    FirstAccepting(builders, p.propertyType).Some?
  }

  /** Dispatch is first-match: the chosen builder accepts the type, every
      earlier one rejects it, and a type nobody accepts gets no builder. */
  lemma DispatchIsFirstMatch(builders: seq<Builder>, t: ClrType)
    ensures match FirstAccepting(builders, t)
      case Some(k) => k < |builders| && builders[k].isValid(t) &&
                      forall j :: 0 <= j < k ==> !builders[j].isValid(t)
      case None => forall j :: 0 <= j < |builders| ==> !builders[j].isValid(t)
  {
    var q := (b: Builder) => b.isValid(t);
    match FirstAccepting(builders, t)
    case Some(k) =>
      assert q(builders[k]);
      forall j | 0 <= j < k ensures !builders[j].isValid(t) { assert !q(builders[j]); }
    case None =>
      forall j | 0 <= j < |builders| ensures !builders[j].isValid(t) { assert !q(builders[j]); }
  }

  /** Registering more builders never changes the choice for a type an
      earlier builder already accepts. */
  lemma {:induction false} RegisterKeepsDispatch(builders: seq<Builder>, b: Builder, t: ClrType)
    requires FirstAccepting(builders, t).Some?
    ensures FirstAccepting(builders + [b], t) == FirstAccepting(builders, t)
  {
    var q := (x: Builder) => x.isValid(t);
    var k := FirstAccepting(builders, t).value;
    assert (builders + [b])[k] == builders[k];
    assert q((builders + [b])[k]);
    forall j | 0 <= j < k ensures !q((builders + [b])[j]) {
      assert (builders + [b])[j] == builders[j];
    }
  }

  // ---------------------------------------------------------------------
  // The page

  datatype Item = Item(content: Value, description: string, header: string)
  datatype Group = Group(id: string, title: string, items: seq<Item>)
  datatype Category = Category(id: string, title: string, groups: seq<Group>)

  /** A group, named by its category's id and its own id. */
  datatype GroupKey = GroupKey(category: string, group: string)

  /** A button handler: Save or Reset of the appended config. */
  datatype Handler = SaveHandler(config: ConfigModule) | ResetHandler(config: ConfigModule)

  /** What a page shows: its categories, the item index and the selected group. */
  datatype Layout = Layout(categories: seq<Category>, itemsMap: map<string, Item>, selected: Option<GroupKey>)

  const EmptyLayout: Layout := Layout([], map[], None)

  function CategoryIndex(cats: seq<Category>, id: string): Option<nat> {
    FirstIndex(cats, (c: Category) => c.id == id)
  }

  function GroupIndex(groups: seq<Group>, id: string): Option<nat> {
    FirstIndex(groups, (g: Group) => g.id == id)
  }

  ghost predicate UniqueCategoryIds(cats: seq<Category>) {
    forall i, j :: 0 <= i < j < |cats| ==> cats[i].id != cats[j].id
  }

  ghost predicate UniqueGroupIds(groups: seq<Group>) {
    forall i, j :: 0 <= i < j < |groups| ==> groups[i].id != groups[j].id
  }

  /** Some group of the layout has these ids. */
  ghost predicate HasGroup(l: Layout, key: GroupKey) {
    exists i, j :: 0 <= i < |l.categories| && 0 <= j < |l.categories[i].groups| &&
      l.categories[i].id == key.category && l.categories[i].groups[j].id == key.group
  }

  /** Category ids are unique, group ids are unique within their category,
      and the selected group is one of the page's groups. */
  ghost predicate WellFormed(l: Layout) {
    UniqueCategoryIds(l.categories) &&
    (forall i :: 0 <= i < |l.categories| ==> UniqueGroupIds(l.categories[i].groups)) &&
    (l.selected.Some? ==> HasGroup(l, l.selected.value))
  }

  /** Every category and group of `l` is still at its place in `l2`, with
      the same id and title. */
  ghost predicate Extends(l: Layout, l2: Layout) {
    |l.categories| <= |l2.categories| &&
    forall i :: 0 <= i < |l.categories| ==>
      l2.categories[i].id == l.categories[i].id &&
      l2.categories[i].title == l.categories[i].title &&
      |l.categories[i].groups| <= |l2.categories[i].groups| &&
      forall j :: 0 <= j < |l.categories[i].groups| ==>
        l2.categories[i].groups[j].id == l.categories[i].groups[j].id &&
        l2.categories[i].groups[j].title == l.categories[i].groups[j].title
  }

  /** The items of the group at position (i, j); none where there is no group. */
  function ItemsAt(l: Layout, i: nat, j: nat): seq<Item> {
    if i < |l.categories| && j < |l.categories[i].groups| then l.categories[i].groups[j].items else []
  }

  /** GetConfigGroup's result: the page after the lookup and the group's position. */
  datatype Located = Located(layout: Layout, ci: nat, gi: nat)

  /** GetConfigGroup on a layout: the category with the property's category
      id, appended if missing, then the group with its group id inside it,
      appended if missing; the group is selected when the page then has
      exactly one category holding exactly one group. Creating a category
      or group appends it to its parent. */
  function Locate(l: Layout, p: ConfigProperty): (r: Located)
    ensures r.ci < |r.layout.categories| && r.gi < |r.layout.categories[r.ci].groups|
  {
    var foundCategory := CategoryIndex(l.categories, p.category);
    var cats := if foundCategory.Some? then l.categories
                else l.categories + [Category(p.category, Translate(p.category), [])];
    var ci := if foundCategory.Some? then foundCategory.value else |l.categories|;
    var cat := cats[ci];
    var foundGroup := GroupIndex(cat.groups, p.group);
    var groups := if foundGroup.Some? then cat.groups
                  else cat.groups + [Group(p.group, Translate(p.group), [])];
    var gi := if foundGroup.Some? then foundGroup.value else |cat.groups|;
    var cats2 := cats[ci := cat.(groups := groups)];
    var selected := if |cats2| == 1 && |cats2[0].groups| == 1 then Some(GroupKey(p.category, p.group))
                    else l.selected;
    Located(Layout(cats2, l.itemsMap, selected), ci, gi)
  }

  lemma CategoryAt(cats: seq<Category>, i: nat, id: string)
    requires UniqueCategoryIds(cats) && i < |cats| && cats[i].id == id
    ensures CategoryIndex(cats, id) == Some(i)
  {
    var q := (c: Category) => c.id == id;
    assert q(cats[i]);
    var k := CategoryIndex(cats, id).value;
    assert q(cats[k]);
  }

  /** (i, j) is the position of a group of `l`: category i, group j in it. */
  predicate IsPosition(l: Layout, i: int, j: int) {
    0 <= i < |l.categories| && 0 <= j < |l.categories[i].groups|
  }

  /** Where GetConfigGroup puts things: the located category and group carry
      the property's ids, at most one category and one group are appended,
      every position that is new carries the property's ids, no other
      category and no item changes, and the selection follows the
      single-group rule. */
  lemma LocateStructure(l: Layout, p: ConfigProperty)
    ensures var r := Locate(l, p); var cats := r.layout.categories;
      cats[r.ci].id == p.category && cats[r.ci].groups[r.gi].id == p.group &&
      |cats| == (if CategoryIndex(l.categories, p.category).Some? then |l.categories| else |l.categories| + 1) &&
      (r.ci < |l.categories| ==>
         |cats[r.ci].groups| == (if GroupIndex(l.categories[r.ci].groups, p.group).Some?
                                 then |l.categories[r.ci].groups| else |l.categories[r.ci].groups| + 1)) &&
      (r.ci == |l.categories| ==> |cats[r.ci].groups| == 1) &&
      (forall i :: 0 <= i < |cats| && i != r.ci ==> i < |l.categories| && cats[i] == l.categories[i]) &&
      (forall i, j :: 0 <= i < |cats| && 0 <= j < |cats[i].groups| ==>
         cats[i].groups[j].items == ItemsAt(l, i, j)) &&
      r.layout.itemsMap == l.itemsMap &&
      r.layout.selected == (if |cats| == 1 && |cats[0].groups| == 1 then Some(GroupKey(p.category, p.group))
                            else l.selected)
  {
  }

  /** A position of the located page that the old page did not have is the
      property's own category and group. */
  lemma LocateNewPositions(l: Layout, p: ConfigProperty)
    ensures var l2 := Locate(l, p).layout;
      forall i, j :: IsPosition(l2, i, j) && !IsPosition(l, i, j) ==>
        l2.categories[i].id == p.category && l2.categories[i].groups[j].id == p.group
  {
    var r := Locate(l, p);
    var cats := r.layout.categories;
    LocateStructure(l, p);
    forall i, j | IsPosition(r.layout, i, j) && !IsPosition(l, i, j)
      ensures cats[i].id == p.category && cats[i].groups[j].id == p.group
    {
      assert i == r.ci;
      if r.ci < |l.categories| {
        assert j == |l.categories[r.ci].groups| && j == r.gi;
      } else {
        assert j == 0 && r.gi == 0;
      }
    }
  }

  /** GetConfigGroup keeps category ids unique, and group ids unique within
      their category. */
  lemma LocateKeepsUniqueIds(l: Layout, p: ConfigProperty)
    requires WellFormed(l)
    ensures var cats := Locate(l, p).layout.categories;
      UniqueCategoryIds(cats) && forall i :: 0 <= i < |cats| ==> UniqueGroupIds(cats[i].groups)
  {
    LocateStructure(l, p);
    var r := Locate(l, p);
    var cats := r.layout.categories;
    var qc := (c: Category) => c.id == p.category;
    var foundCategory := CategoryIndex(l.categories, p.category);
    var cats1 := if foundCategory.Some? then l.categories
                 else l.categories + [Category(p.category, Translate(p.category), [])];
    assert UniqueCategoryIds(cats1) by {
      if foundCategory.None? {
        forall i | 0 <= i < |l.categories| ensures cats1[i].id != p.category { assert !qc(l.categories[i]); }
      }
    }
    var cat := cats1[r.ci];
    var qg := (g: Group) => g.id == p.group;
    var foundGroup := GroupIndex(cat.groups, p.group);
    if foundGroup.None? {
      forall j | 0 <= j < |cat.groups| ensures cat.groups[j].id != p.group { assert !qg(cat.groups[j]); }
    }
    assert UniqueGroupIds(cats[r.ci].groups);
    forall i | 0 <= i < |cats| ensures UniqueGroupIds(cats[i].groups) {
      if i != r.ci { assert cats[i] == l.categories[i]; }
    }
  }

  /** GetConfigGroup keeps every category and group at its place, with its
      id and title. */
  lemma LocateExtends(l: Layout, p: ConfigProperty)
    ensures Extends(l, Locate(l, p).layout)
  {
    LocateStructure(l, p);
  }

  /** After GetConfigGroup a selection still names a group of the page. */
  lemma LocateKeepsSelection(l: Layout, p: ConfigProperty)
    requires WellFormed(l)
    ensures var r := Locate(l, p);
      r.layout.selected.Some? ==> HasGroup(r.layout, r.layout.selected.value)
  {
    LocateStructure(l, p);
    LocateExtends(l, p);
    var r := Locate(l, p);
    var cats := r.layout.categories;
    if r.layout.selected.Some? {
      if |cats| == 1 && |cats[0].groups| == 1 {
        assert r.ci == 0 && r.gi == 0;
      } else {
        var key := l.selected.value;
        var i, j :| 0 <= i < |l.categories| && 0 <= j < |l.categories[i].groups| &&
          l.categories[i].id == key.category && l.categories[i].groups[j].id == key.group;
        assert cats[i].groups[j].id == key.group;
      }
    }
  }

  /** GetConfigGroup on a well-formed page leaves it well formed, with every
      category and group kept at its place. */
  lemma LocateFacts(l: Layout, p: ConfigProperty)
    requires WellFormed(l)
    ensures WellFormed(Locate(l, p).layout) && Extends(l, Locate(l, p).layout)
  {
    LocateKeepsUniqueIds(l, p);
    LocateExtends(l, p);
    LocateKeepsSelection(l, p);
  }

  /** The item for an accepted property: the first accepting builder's
      content, with the translated description and header. */
  function ItemFor(builders: seq<Builder>, config: ConfigModule, p: ConfigProperty): Item
    requires Accepts(builders, p)
  {
    Item(builders[FirstAccepting(builders, p.propertyType).value].build(config, p),
         Translate(p.description), Translate(p.header))
  }

  /** The ItemsMap key of a property. */
  function ItemKey(p: ConfigProperty): string {
    p.category + "/" + p.group + "/" + p.name
  }

  /** `group.Items.Add(item)` for the group at position (ci, gi). */
  function AddItem(cats: seq<Category>, ci: nat, gi: nat, item: Item): (r: seq<Category>)
    requires ci < |cats| && gi < |cats[ci].groups|
    ensures SameShape(cats, r)
    ensures forall i, j :: 0 <= i < |r| && 0 <= j < |r[i].groups| ==>
              r[i].groups[j].items == cats[i].groups[j].items + (if i == ci && j == gi then [item] else [])
  {
    var cat := cats[ci];
    var group := cat.groups[gi];
    cats[ci := cat.(groups := cat.groups[gi := group.(items := group.items + [item])])]
  }

  /** The two lists hold the same categories and groups at the same places,
      whatever their items. */
  ghost predicate SameShape(cats: seq<Category>, cats2: seq<Category>) {
    |cats2| == |cats| &&
    forall i :: 0 <= i < |cats| ==>
      cats2[i].id == cats[i].id && cats2[i].title == cats[i].title &&
      |cats2[i].groups| == |cats[i].groups| &&
      forall j :: 0 <= j < |cats[i].groups| ==>
        cats2[i].groups[j].id == cats[i].groups[j].id && cats2[i].groups[j].title == cats[i].groups[j].title
  }

  lemma SameShapeKeepsWellFormed(l: Layout, cats2: seq<Category>)
    requires WellFormed(l) && SameShape(l.categories, cats2)
    ensures WellFormed(Layout(cats2, l.itemsMap, l.selected))
    ensures Extends(l, Layout(cats2, l.itemsMap, l.selected))
  {
    var l2 := Layout(cats2, l.itemsMap, l.selected);
    forall i | 0 <= i < |cats2| ensures UniqueGroupIds(cats2[i].groups) {
      assert UniqueGroupIds(l.categories[i].groups);
    }
    if l.selected.Some? {
      var key := l.selected.value;
      var i, j :| 0 <= i < |l.categories| && 0 <= j < |l.categories[i].groups| &&
        l.categories[i].id == key.category && l.categories[i].groups[j].id == key.group;
      assert cats2[i].groups[j].id == key.group;
    }
  }

  /** In a well-formed page a pair of ids names at most one position. */
  lemma UniquePosition(l: Layout, i: nat, j: nat, i2: nat, j2: nat)
    requires WellFormed(l)
    requires i < |l.categories| && j < |l.categories[i].groups|
    requires i2 < |l.categories| && j2 < |l.categories[i2].groups|
    requires l.categories[i].id == l.categories[i2].id
    requires l.categories[i].groups[j].id == l.categories[i2].groups[j2].id
    ensures i == i2 && j == j2
  {
    assert UniqueGroupIds(l.categories[i].groups);
  }

  /** One pass of Append's loop: a property no builder accepts changes
      nothing; an accepted one is appended to its group and indexed under
      its key unless the key is taken. */
  function Place(l: Layout, p: ConfigProperty, builders: seq<Builder>, config: ConfigModule): Layout {
    if !Accepts(builders, p) then l
    else
      var r := Locate(l, p);
      var item := ItemFor(builders, config, p);
      var key := ItemKey(p);
      var index := if key in r.layout.itemsMap then r.layout.itemsMap else r.layout.itemsMap[key := item];
      Layout(AddItem(r.layout.categories, r.ci, r.gi, item), index, r.layout.selected)
  }

  /** The page after Append's loop has run over `props`. */
  function PlaceAll(l: Layout, props: seq<ConfigProperty>, builders: seq<Builder>, config: ConfigModule): Layout {
    if props == [] then l
    else Place(PlaceAll(l, props[..|props| - 1], builders, config), props[|props| - 1], builders, config)
  }

  /** The item property `p` adds to the group (category, group): its own if
      it is accepted and belongs there, otherwise none. */
  function Contribution(p: ConfigProperty, builders: seq<Builder>, config: ConfigModule,
                        category: string, group: string): seq<Item>
  {
    if Accepts(builders, p) && p.category == category && p.group == group then [ItemFor(builders, config, p)] else []
  }

  /** The items the properties `props` add to the group (category, group), in order. */
  function Contributed(props: seq<ConfigProperty>, builders: seq<Builder>, config: ConfigModule,
                       category: string, group: string): seq<Item>
  {
    if props == [] then []
    else Contributed(props[..|props| - 1], builders, config, category, group) +
         Contribution(props[|props| - 1], builders, config, category, group)
  }

  lemma {:induction false} ContributedComesFromProps(props: seq<ConfigProperty>, builders: seq<Builder>, config: ConfigModule,
                                                     category: string, group: string)
    requires Contributed(props, builders, config, category, group) != []
    ensures exists k :: 0 <= k < |props| && Accepts(builders, props[k]) &&
                        props[k].category == category && props[k].group == group
  {
    var init := props[..|props| - 1];
    var p := props[|props| - 1];
    if !(Accepts(builders, p) && p.category == category && p.group == group) {
      ContributedComesFromProps(init, builders, config, category, group);
      var k :| 0 <= k < |init| && Accepts(builders, init[k]) && init[k].category == category && init[k].group == group;
      assert props[k] == init[k];
    }
  }

  /** One placement keeps the page well formed and every category and group
      where it was, gives an accepted property its group, never clears the
      selection, and a rejected property changes nothing. */
  lemma PlaceShape(l: Layout, p: ConfigProperty, builders: seq<Builder>, config: ConfigModule)
    requires WellFormed(l)
    ensures var l2 := Place(l, p, builders, config);
      WellFormed(l2) && Extends(l, l2) &&
      (!Accepts(builders, p) ==> l2 == l) &&
      (Accepts(builders, p) ==> HasGroup(l2, GroupKey(p.category, p.group))) &&
      (l.selected.Some? ==> l2.selected.Some?)
  {
    if Accepts(builders, p) {
      LocateFacts(l, p);
      LocateStructure(l, p);
      var r := Locate(l, p);
      var item := ItemFor(builders, config, p);
      var cats := AddItem(r.layout.categories, r.ci, r.gi, item);
      SameShapeKeepsWellFormed(r.layout, cats);
      var l2 := Place(l, p, builders, config);
      assert l2.categories == cats;
      assert cats[r.ci].groups[r.gi].id == p.group;
    }
  }

  /** One placement adds the property's item, if it is accepted, to the end
      of its own group and to no other. */
  lemma PlaceItems(l: Layout, p: ConfigProperty, builders: seq<Builder>, config: ConfigModule)
    requires WellFormed(l)
    ensures var cats := Place(l, p, builders, config).categories;
      forall i, j :: 0 <= i < |cats| && 0 <= j < |cats[i].groups| ==>
        cats[i].groups[j].items == ItemsAt(l, i, j) + Contribution(p, builders, config, cats[i].id, cats[i].groups[j].id)
  {
    var cats := Place(l, p, builders, config).categories;
    if Accepts(builders, p) {
      LocateFacts(l, p);
      LocateStructure(l, p);
      var r := Locate(l, p);
      var item := ItemFor(builders, config, p);
      assert cats == AddItem(r.layout.categories, r.ci, r.gi, item);
      forall i, j | 0 <= i < |cats| && 0 <= j < |cats[i].groups|
        ensures cats[i].groups[j].items == ItemsAt(l, i, j) + Contribution(p, builders, config, cats[i].id, cats[i].groups[j].id)
      {
        if cats[i].id == p.category && cats[i].groups[j].id == p.group {
          UniquePosition(r.layout, i, j, r.ci, r.gi);
        }
      }
    } else {
      forall i, j | 0 <= i < |cats| && 0 <= j < |cats[i].groups|
        ensures cats[i].groups[j].items == ItemsAt(l, i, j) + Contribution(p, builders, config, cats[i].id, cats[i].groups[j].id)
      {
        assert ItemsAt(l, i, j) == cats[i].groups[j].items;
      }
    }
  }

  /** Append's loop keeps the page well formed, every category and group
      where it was, and any selection; it gives every accepted property a group. */
  lemma {:induction false} PlaceAllShape(l: Layout, props: seq<ConfigProperty>, builders: seq<Builder>, config: ConfigModule)
    requires WellFormed(l)
    ensures var l2 := PlaceAll(l, props, builders, config);
      WellFormed(l2) && Extends(l, l2) &&
      (l.selected.Some? ==> l2.selected.Some?) &&
      (forall k :: 0 <= k < |props| && Accepts(builders, props[k]) ==>
         HasGroup(l2, GroupKey(props[k].category, props[k].group)))
  {
    if props != [] {
      var init := props[..|props| - 1];
      var last := props[|props| - 1];
      PlaceAllShape(l, init, builders, config);
      var l1 := PlaceAll(l, init, builders, config);
      PlaceShape(l1, last, builders, config);
      var l2 := PlaceAll(l, props, builders, config);
      forall k | 0 <= k < |props| && Accepts(builders, props[k])
        ensures HasGroup(l2, GroupKey(props[k].category, props[k].group))
      {
        if k < |props| - 1 {
          assert props[k] == init[k];
          var key := GroupKey(props[k].category, props[k].group);
          var i, j :| 0 <= i < |l1.categories| && 0 <= j < |l1.categories[i].groups| &&
            l1.categories[i].id == key.category && l1.categories[i].groups[j].id == key.group;
          assert l2.categories[i].groups[j].id == key.group;
        }
      }
    }
  }

  /** The earlier properties' items can only be at positions that existed
      before the placement of `last`, since each of them already had its group. */
  lemma EarlierItemsAtOldPositions(l1: Layout, l2: Layout, init: seq<ConfigProperty>, builders: seq<Builder>,
                                   config: ConfigModule, i: nat, j: nat)
    requires WellFormed(l2) && Extends(l1, l2)
    requires forall k :: 0 <= k < |init| && Accepts(builders, init[k]) ==>
               HasGroup(l1, GroupKey(init[k].category, init[k].group))
    requires i < |l2.categories| && j < |l2.categories[i].groups|
    ensures Contributed(init, builders, config, l2.categories[i].id, l2.categories[i].groups[j].id) != [] ==>
              i < |l1.categories| && j < |l1.categories[i].groups|
  {
    var c, g := l2.categories[i].id, l2.categories[i].groups[j].id;
    if Contributed(init, builders, config, c, g) != [] {
      ContributedComesFromProps(init, builders, config, c, g);
      var k :| 0 <= k < |init| && Accepts(builders, init[k]) && init[k].category == c && init[k].group == g;
      var i1, j1 :| 0 <= i1 < |l1.categories| && 0 <= j1 < |l1.categories[i1].groups| &&
        l1.categories[i1].id == c && l1.categories[i1].groups[j1].id == g;
      UniquePosition(l2, i1, j1, i, j);
    }
  }

  /** One position after a placement: its items are the old ones there
      followed by what the new property contributes. */
  lemma ItemsStep(l: Layout, l1: Layout, l2: Layout, init: seq<ConfigProperty>, last: ConfigProperty,
                  builders: seq<Builder>, config: ConfigModule, i: nat, j: nat)
    requires Extends(l, l1) && WellFormed(l1)
    requires l2 == Place(l1, last, builders, config)
    requires forall k :: 0 <= k < |init| && Accepts(builders, init[k]) ==>
               HasGroup(l1, GroupKey(init[k].category, init[k].group))
    requires forall i, j :: 0 <= i < |l1.categories| && 0 <= j < |l1.categories[i].groups| ==>
               l1.categories[i].groups[j].items == ItemsAt(l, i, j) +
                 Contributed(init, builders, config, l1.categories[i].id, l1.categories[i].groups[j].id)
    requires i < |l2.categories| && j < |l2.categories[i].groups|
    ensures var c, g := l2.categories[i].id, l2.categories[i].groups[j].id;
      l2.categories[i].groups[j].items ==
        ItemsAt(l, i, j) + Contributed(init, builders, config, c, g) + Contribution(last, builders, config, c, g)
  {
    PlaceShape(l1, last, builders, config);
    PlaceItems(l1, last, builders, config);
    if !(i < |l1.categories| && j < |l1.categories[i].groups|) {
      EarlierItemsAtOldPositions(l1, l2, init, builders, config, i, j);
    }
  }

  /** After Append's loop each group holds its old items followed by the
      items of the accepted properties that belong to it, in catalog order;
      the chosen builder of each is the first that accepts it. */
  lemma {:induction false} PlaceAllItems(l: Layout, props: seq<ConfigProperty>, builders: seq<Builder>, config: ConfigModule)
    requires WellFormed(l)
    ensures var cats := PlaceAll(l, props, builders, config).categories;
      forall i, j :: 0 <= i < |cats| && 0 <= j < |cats[i].groups| ==>
        cats[i].groups[j].items == ItemsAt(l, i, j) + Contributed(props, builders, config, cats[i].id, cats[i].groups[j].id)
  {
    if props == [] {
      var cats := l.categories;
      forall i, j | 0 <= i < |cats| && 0 <= j < |cats[i].groups|
        ensures cats[i].groups[j].items == ItemsAt(l, i, j)
      { }
    } else {
      var init := props[..|props| - 1];
      var last := props[|props| - 1];
      PlaceAllItems(l, init, builders, config);
      PlaceAllShape(l, init, builders, config);
      var l1 := PlaceAll(l, init, builders, config);
      var l2 := PlaceAll(l, props, builders, config);
      var cats := l2.categories;
      forall i, j | 0 <= i < |cats| && 0 <= j < |cats[i].groups|
        ensures cats[i].groups[j].items == ItemsAt(l, i, j) + Contributed(props, builders, config, cats[i].id, cats[i].groups[j].id)
      {
        ItemsStep(l, l1, l2, init, last, builders, config, i, j);
      }
    }
  }

  /** One placement creates a category or group only for an accepted
      property, and only the property's own. */
  lemma PlaceNewPositions(l: Layout, p: ConfigProperty, builders: seq<Builder>, config: ConfigModule)
    ensures var l2 := Place(l, p, builders, config);
      forall i, j :: IsPosition(l2, i, j) && !IsPosition(l, i, j) ==>
        Accepts(builders, p) && l2.categories[i].id == p.category && l2.categories[i].groups[j].id == p.group
  {
    if Accepts(builders, p) {
      LocateNewPositions(l, p);
      var r := Locate(l, p);
      assert Place(l, p, builders, config).categories ==
             AddItem(r.layout.categories, r.ci, r.gi, ItemFor(builders, config, p));
    }
  }

  /** Every category and group of `l2` that `l` does not have is named by
      some accepted property of `props`. */
  ghost predicate NewGroupsNamed(l: Layout, l2: Layout, props: seq<ConfigProperty>, builders: seq<Builder>) {
    forall i, j :: IsPosition(l2, i, j) && !IsPosition(l, i, j) ==>
      exists k :: 0 <= k < |props| && Accepts(builders, props[k]) &&
                  props[k].category == l2.categories[i].id && props[k].group == l2.categories[i].groups[j].id
  }

  lemma NewGroupsNamedStep(l: Layout, l1: Layout, l2: Layout, init: seq<ConfigProperty>, last: ConfigProperty,
                           builders: seq<Builder>)
    requires NewGroupsNamed(l, l1, init, builders) && Extends(l1, l2)
    requires forall i, j :: IsPosition(l2, i, j) && !IsPosition(l1, i, j) ==>
      Accepts(builders, last) && l2.categories[i].id == last.category && l2.categories[i].groups[j].id == last.group
    ensures NewGroupsNamed(l, l2, init + [last], builders)
  {
    var props := init + [last];
    forall i, j | IsPosition(l2, i, j) && !IsPosition(l, i, j)
      ensures exists k :: 0 <= k < |props| && Accepts(builders, props[k]) &&
                          props[k].category == l2.categories[i].id && props[k].group == l2.categories[i].groups[j].id
    {
      if IsPosition(l1, i, j) {
        var k :| 0 <= k < |init| && Accepts(builders, init[k]) &&
                 init[k].category == l1.categories[i].id && init[k].group == l1.categories[i].groups[j].id;
        assert props[k] == init[k];
        assert l2.categories[i].id == l1.categories[i].id && l2.categories[i].groups[j].id == l1.categories[i].groups[j].id;
        assert Accepts(builders, props[k]) &&
               props[k].category == l2.categories[i].id && props[k].group == l2.categories[i].groups[j].id;
      } else {
        var k := |init|;
        assert props[k] == last;
        assert Accepts(builders, props[k]) &&
               props[k].category == l2.categories[i].id && props[k].group == l2.categories[i].groups[j].id;
      }
    }
    assert NewGroupsNamed(l, l2, props, builders);
  }

  /** Append's loop creates a category or group only for an accepted
      property that names it: no category or group comes from a property no
      builder accepts. */
  lemma {:induction false} PlaceAllNewGroupsFromProps(l: Layout, props: seq<ConfigProperty>,
                                                      builders: seq<Builder>, config: ConfigModule)
    requires WellFormed(l)
    ensures NewGroupsNamed(l, PlaceAll(l, props, builders, config), props, builders)
  {
    if props != [] {
      var init := props[..|props| - 1];
      var last := props[|props| - 1];
      assert props == init + [last];
      PlaceAllNewGroupsFromProps(l, init, builders, config);
      PlaceAllShape(l, init, builders, config);
      var l1 := PlaceAll(l, init, builders, config);
      PlaceShape(l1, last, builders, config);
      PlaceNewPositions(l1, last, builders, config);
      NewGroupsNamedStep(l, l1, Place(l1, last, builders, config), init, last, builders);
    }
  }

  // ---------------------------------------------------------------------
  // First-seen order: the loop creates categories and groups in the order
  // in which the accepted properties first name them

  /** An accepted property of this category. */
  function InCategory(builders: seq<Builder>, c: string): ConfigProperty -> bool {
    (p: ConfigProperty) => Accepts(builders, p) && p.category == c
  }

  /** An accepted property of this category and group. */
  function InGroup(builders: seq<Builder>, c: string, g: string): ConfigProperty -> bool {
    (p: ConfigProperty) => Accepts(builders, p) && p.category == c && p.group == g
  }

  /** Index of the first accepted property of category c. */
  function FirstInCategory(props: seq<ConfigProperty>, builders: seq<Builder>, c: string): Option<nat> {
    FirstIndex(props, InCategory(builders, c))
  }

  /** Index of the first accepted property of group g in category c. */
  function FirstInGroup(props: seq<ConfigProperty>, builders: seq<Builder>, c: string, g: string): Option<nat> {
    FirstIndex(props, InGroup(builders, c, g))
  }

  lemma FirstInCategorySnoc(init: seq<ConfigProperty>, last: ConfigProperty, builders: seq<Builder>, c: string)
    ensures FirstInCategory(init + [last], builders, c) ==
              if FirstInCategory(init, builders, c).Some? then FirstInCategory(init, builders, c)
              else if Accepts(builders, last) && last.category == c then Some(|init|) else None
  {
    FirstIndexSnoc(init, last, InCategory(builders, c));
  }

  lemma FirstInGroupSnoc(init: seq<ConfigProperty>, last: ConfigProperty, builders: seq<Builder>, c: string, g: string)
    ensures FirstInGroup(init + [last], builders, c, g) ==
              if FirstInGroup(init, builders, c, g).Some? then FirstInGroup(init, builders, c, g)
              else if Accepts(builders, last) && last.category == c && last.group == g then Some(|init|) else None
  {
    FirstIndexSnoc(init, last, InGroup(builders, c, g));
  }

  /** The number of groups of category i of `l`; none where there is no category. */
  function GroupCount(l: Layout, i: nat): nat {
    if i < |l.categories| then |l.categories[i].groups| else 0
  }

  /** One placement appends at most one category, and to a category at most
      one group, always at the end, and only for an accepted property whose
      category or group the page did not have. */
  lemma PlaceGrowth(l: Layout, p: ConfigProperty, builders: seq<Builder>, config: ConfigModule)
    requires WellFormed(l)
    ensures var cats := Place(l, p, builders, config).categories;
      |l.categories| <= |cats| <= |l.categories| + 1 &&
      (|cats| > |l.categories| ==>
         Accepts(builders, p) && cats[|l.categories|].id == p.category &&
         forall i :: 0 <= i < |l.categories| ==> l.categories[i].id != p.category)
    ensures var cats := Place(l, p, builders, config).categories;
      forall i :: 0 <= i < |cats| ==>
        GroupCount(l, i) <= |cats[i].groups| <= GroupCount(l, i) + 1 &&
        (|cats[i].groups| > GroupCount(l, i) ==>
           Accepts(builders, p) && cats[i].id == p.category && cats[i].groups[GroupCount(l, i)].id == p.group &&
           !HasGroup(l, GroupKey(p.category, p.group)))
  {
    if Accepts(builders, p) {
      LocateStructure(l, p);
      var r := Locate(l, p);
      var cats := Place(l, p, builders, config).categories;
      assert cats == AddItem(r.layout.categories, r.ci, r.gi, ItemFor(builders, config, p));
      var qc := (c: Category) => c.id == p.category;
      var foundCategory := CategoryIndex(l.categories, p.category);
      if foundCategory.None? {
        forall i | 0 <= i < |l.categories| ensures l.categories[i].id != p.category {
          assert !qc(l.categories[i]);
        }
      }
      forall i | 0 <= i < |cats| && |cats[i].groups| > GroupCount(l, i)
        ensures cats[i].groups[GroupCount(l, i)].id == p.group && !HasGroup(l, GroupKey(p.category, p.group))
      {
        assert i == r.ci;
        if r.ci < |l.categories| {
          assert foundCategory == Some(r.ci);
          var cat := l.categories[r.ci];
          var qg := (g: Group) => g.id == p.group;
          assert GroupIndex(cat.groups, p.group).None?;
          assert r.gi == |cat.groups|;
          forall j | 0 <= j < |cat.groups| ensures cat.groups[j].id != p.group {
            assert !qg(cat.groups[j]);
          }
        } else {
          assert r.gi == 0;
        }
      }
    }
  }

  /** A category that is not on the page was named by no accepted earlier
      property, since each of those has its group on the page. */
  lemma CategoryNotNamed(l: Layout, init: seq<ConfigProperty>, builders: seq<Builder>, c: string)
    requires forall k :: 0 <= k < |init| && Accepts(builders, init[k]) ==>
               HasGroup(l, GroupKey(init[k].category, init[k].group))
    requires forall i :: 0 <= i < |l.categories| ==> l.categories[i].id != c
    ensures FirstInCategory(init, builders, c).None?
  {
    forall k | 0 <= k < |init| ensures !InCategory(builders, c)(init[k]) {
    }
  }

  /** A group that is not on the page was named by no accepted earlier property. */
  lemma GroupNotNamed(l: Layout, init: seq<ConfigProperty>, builders: seq<Builder>, c: string, g: string)
    requires forall k :: 0 <= k < |init| && Accepts(builders, init[k]) ==>
               HasGroup(l, GroupKey(init[k].category, init[k].group))
    requires !HasGroup(l, GroupKey(c, g))
    ensures FirstInGroup(init, builders, c, g).None?
  {
    forall k | 0 <= k < |init| ensures !InGroup(builders, c, g)(init[k]) {
    }
  }

  /** The categories of `l2` that `l` lacks are each named by an accepted
      property, and they come in the order of the first such property. */
  ghost predicate CategoriesInFirstSeenOrder(l: Layout, l2: Layout, props: seq<ConfigProperty>, builders: seq<Builder>) {
    (forall i :: |l.categories| <= i < |l2.categories| ==>
       FirstInCategory(props, builders, l2.categories[i].id).Some?) &&
    (forall i1, i2 :: |l.categories| <= i1 < i2 < |l2.categories| ==>
       FirstInCategory(props, builders, l2.categories[i1].id).Some? &&
       FirstInCategory(props, builders, l2.categories[i2].id).Some? &&
       FirstInCategory(props, builders, l2.categories[i1].id).value <
         FirstInCategory(props, builders, l2.categories[i2].id).value)
  }

  /** Within each category, the groups of `l2` that `l` lacks are each named
      by an accepted property, and they come in the order of the first such
      property. */
  ghost predicate GroupsInFirstSeenOrder(l: Layout, l2: Layout, props: seq<ConfigProperty>, builders: seq<Builder>) {
    (forall i, j :: IsPosition(l2, i, j) && !IsPosition(l, i, j) ==>
       FirstInGroup(props, builders, l2.categories[i].id, l2.categories[i].groups[j].id).Some?) &&
    (forall i, j1, j2 :: IsPosition(l2, i, j1) && IsPosition(l2, i, j2) && !IsPosition(l, i, j1) && j1 < j2 ==>
       FirstInGroup(props, builders, l2.categories[i].id, l2.categories[i].groups[j1].id).Some? &&
       FirstInGroup(props, builders, l2.categories[i].id, l2.categories[i].groups[j2].id).Some? &&
       FirstInGroup(props, builders, l2.categories[i].id, l2.categories[i].groups[j1].id).value <
         FirstInGroup(props, builders, l2.categories[i].id, l2.categories[i].groups[j2].id).value)
  }

  lemma CategoryOrderStep(l: Layout, l1: Layout, l2: Layout, init: seq<ConfigProperty>, last: ConfigProperty,
                          builders: seq<Builder>)
    requires CategoriesInFirstSeenOrder(l, l1, init, builders)
    requires |l1.categories| <= |l2.categories| <= |l1.categories| + 1
    requires forall i :: 0 <= i < |l1.categories| ==> l2.categories[i].id == l1.categories[i].id
    requires |l2.categories| > |l1.categories| ==>
               Accepts(builders, last) && l2.categories[|l1.categories|].id == last.category &&
               FirstInCategory(init, builders, last.category).None?
    ensures CategoriesInFirstSeenOrder(l, l2, init + [last], builders)
  {
    var props := init + [last];
    forall i | |l.categories| <= i < |l2.categories|
      ensures FirstInCategory(props, builders, l2.categories[i].id).Some?
    {
      FirstInCategorySnoc(init, last, builders, l2.categories[i].id);
      if i < |l1.categories| {
        assert FirstInCategory(init, builders, l1.categories[i].id).Some?;
      }
    }
    forall i1, i2 | |l.categories| <= i1 < i2 < |l2.categories|
      ensures FirstInCategory(props, builders, l2.categories[i1].id).Some? &&
              FirstInCategory(props, builders, l2.categories[i2].id).Some? &&
              FirstInCategory(props, builders, l2.categories[i1].id).value <
                FirstInCategory(props, builders, l2.categories[i2].id).value
    {
      FirstInCategorySnoc(init, last, builders, l2.categories[i1].id);
      FirstInCategorySnoc(init, last, builders, l2.categories[i2].id);
      assert FirstInCategory(init, builders, l1.categories[i1].id).Some?;
      if i2 == |l1.categories| {
        assert FirstInCategory(init, builders, l1.categories[i1].id).value < |init|;
      }
    }
  }

  lemma GroupOrderStep(l: Layout, l1: Layout, l2: Layout, init: seq<ConfigProperty>, last: ConfigProperty,
                       builders: seq<Builder>)
    requires GroupsInFirstSeenOrder(l, l1, init, builders)
    requires Extends(l1, l2)
    requires forall i :: 0 <= i < |l2.categories| ==>
               GroupCount(l1, i) <= |l2.categories[i].groups| <= GroupCount(l1, i) + 1 &&
               (|l2.categories[i].groups| > GroupCount(l1, i) ==>
                  Accepts(builders, last) && l2.categories[i].id == last.category &&
                  l2.categories[i].groups[GroupCount(l1, i)].id == last.group &&
                  FirstInGroup(init, builders, last.category, last.group).None?)
    ensures GroupsInFirstSeenOrder(l, l2, init + [last], builders)
  {
    var props := init + [last];
    forall i, j | IsPosition(l2, i, j) && !IsPosition(l, i, j)
      ensures FirstInGroup(props, builders, l2.categories[i].id, l2.categories[i].groups[j].id).Some?
    {
      FirstInGroupSnoc(init, last, builders, l2.categories[i].id, l2.categories[i].groups[j].id);
      if IsPosition(l1, i, j) {
        assert FirstInGroup(init, builders, l1.categories[i].id, l1.categories[i].groups[j].id).Some?;
      } else {
        assert j == GroupCount(l1, i);
      }
    }
    forall i, j1, j2 | IsPosition(l2, i, j1) && IsPosition(l2, i, j2) && !IsPosition(l, i, j1) && j1 < j2
      ensures FirstInGroup(props, builders, l2.categories[i].id, l2.categories[i].groups[j1].id).Some? &&
              FirstInGroup(props, builders, l2.categories[i].id, l2.categories[i].groups[j2].id).Some? &&
              FirstInGroup(props, builders, l2.categories[i].id, l2.categories[i].groups[j1].id).value <
                FirstInGroup(props, builders, l2.categories[i].id, l2.categories[i].groups[j2].id).value
    {
      FirstInGroupSnoc(init, last, builders, l2.categories[i].id, l2.categories[i].groups[j1].id);
      FirstInGroupSnoc(init, last, builders, l2.categories[i].id, l2.categories[i].groups[j2].id);
      assert IsPosition(l1, i, j1);
      var c := l1.categories[i].id;
      assert FirstInGroup(init, builders, c, l1.categories[i].groups[j1].id).Some?;
      if IsPosition(l1, i, j2) {
        assert FirstInGroup(init, builders, c, l1.categories[i].groups[j2].id).Some?;
      } else {
        assert j2 == GroupCount(l1, i);
        assert FirstInGroup(init, builders, c, l1.categories[i].groups[j1].id).value < |init|;
      }
    }
  }

  /** Append's loop creates categories, and groups within a category, in
      the order in which the accepted properties first name them: groups
      declared as [G2, G1, G2] come out as [G2, G1]. */
  lemma {:induction false} PlaceAllFirstSeenOrder(l: Layout, props: seq<ConfigProperty>,
                                                  builders: seq<Builder>, config: ConfigModule)
    requires WellFormed(l)
    ensures var l2 := PlaceAll(l, props, builders, config);
      CategoriesInFirstSeenOrder(l, l2, props, builders) && GroupsInFirstSeenOrder(l, l2, props, builders)
  {
    if props != [] {
      var init := props[..|props| - 1];
      var last := props[|props| - 1];
      assert props == init + [last];
      PlaceAllFirstSeenOrder(l, init, builders, config);
      PlaceAllShape(l, init, builders, config);
      var l1 := PlaceAll(l, init, builders, config);
      var l2 := Place(l1, last, builders, config);
      PlaceShape(l1, last, builders, config);
      PlaceGrowth(l1, last, builders, config);
      if |l2.categories| > |l1.categories| {
        CategoryNotNamed(l1, init, builders, last.category);
      }
      if !HasGroup(l1, GroupKey(last.category, last.group)) {
        GroupNotNamed(l1, init, builders, last.category, last.group);
      }
      CategoryOrderStep(l, l1, l2, init, last, builders);
      GroupOrderStep(l, l1, l2, init, last, builders);
    }
  }

  /** One placement adds the property's key, with its item, to the item index
      when the property is accepted and the key is new, and changes nothing
      else there. */
  lemma PlaceIndexStep(l: Layout, p: ConfigProperty, builders: seq<Builder>, config: ConfigModule, key: string)
    ensures var m := Place(l, p, builders, config).itemsMap;
      (key in l.itemsMap ==> key in m && m[key] == l.itemsMap[key]) &&
      (key !in l.itemsMap ==> (key in m <==> Accepts(builders, p) && ItemKey(p) == key)) &&
      (key !in l.itemsMap && key in m ==> m[key] == ItemFor(builders, config, p))
  {
    if Accepts(builders, p) {
      LocateStructure(l, p);
    }
  }

  /** The item index after the loop: a key already present keeps its item,
      and a new key is present exactly when some accepted property has it. */
  lemma {:induction false} PlaceAllIndexKeys(l: Layout, props: seq<ConfigProperty>, builders: seq<Builder>,
                                             config: ConfigModule, key: string)
    ensures var m := PlaceAll(l, props, builders, config).itemsMap;
      (key in l.itemsMap ==> key in m && m[key] == l.itemsMap[key]) &&
      (key !in l.itemsMap ==>
         (key in m <==> exists k :: 0 <= k < |props| && Accepts(builders, props[k]) && ItemKey(props[k]) == key))
  {
    if props != [] {
      var init := props[..|props| - 1];
      var last := props[|props| - 1];
      PlaceAllIndexKeys(l, init, builders, config, key);
      PlaceIndexStep(PlaceAll(l, init, builders, config), last, builders, config, key);
      if key !in l.itemsMap {
        if exists k :: 0 <= k < |init| && Accepts(builders, init[k]) && ItemKey(init[k]) == key {
          var k :| 0 <= k < |init| && Accepts(builders, init[k]) && ItemKey(init[k]) == key;
          assert props[k] == init[k];
        }
        if exists k :: 0 <= k < |props| && Accepts(builders, props[k]) && ItemKey(props[k]) == key {
          var k :| 0 <= k < |props| && Accepts(builders, props[k]) && ItemKey(props[k]) == key;
          if k < |props| - 1 { assert init[k] == props[k]; }
        }
      }
    }
  }

  /** A key that was not in the index holds the item of the first accepted
      property that has it: later properties never overwrite it. */
  lemma {:induction false} PlaceAllIndexFirstWins(l: Layout, props: seq<ConfigProperty>, builders: seq<Builder>,
                                                  config: ConfigModule, k: nat)
    requires k < |props| && Accepts(builders, props[k]) && ItemKey(props[k]) !in l.itemsMap
    requires forall k' :: 0 <= k' < k ==> !(Accepts(builders, props[k']) && ItemKey(props[k']) == ItemKey(props[k]))
    ensures var m := PlaceAll(l, props, builders, config).itemsMap;
      ItemKey(props[k]) in m && m[ItemKey(props[k])] == ItemFor(builders, config, props[k])
  {
    var key := ItemKey(props[k]);
    var init := props[..|props| - 1];
    var last := props[|props| - 1];
    PlaceIndexStep(PlaceAll(l, init, builders, config), last, builders, config, key);
    if k < |props| - 1 {
      assert init[k] == props[k];
      forall k' | 0 <= k' < k ensures !(Accepts(builders, init[k']) && ItemKey(init[k']) == key) {
        assert init[k'] == props[k'];
      }
      PlaceAllIndexFirstWins(l, init, builders, config, k);
    } else {
      PlaceAllIndexKeys(l, init, builders, config, key);
      forall k' | 0 <= k' < |init| ensures !(Accepts(builders, init[k']) && ItemKey(init[k']) == key) {
        assert init[k'] == props[k'];
      }
    }
  }

  /** A page that ends with a single category holding a single group, after
      at least one accepted property, has that group selected. */
  lemma {:induction false} SingleGroupIsSelected(l: Layout, props: seq<ConfigProperty>, builders: seq<Builder>, config: ConfigModule)
    requires WellFormed(l)
    requires exists k :: 0 <= k < |props| && Accepts(builders, props[k])
    ensures var l2 := PlaceAll(l, props, builders, config);
      |l2.categories| == 1 && |l2.categories[0].groups| == 1 ==>
        l2.selected == Some(GroupKey(l2.categories[0].id, l2.categories[0].groups[0].id))
  {
    var init := props[..|props| - 1];
    var last := props[|props| - 1];
    PlaceAllShape(l, init, builders, config);
    var l1 := PlaceAll(l, init, builders, config);
    var l2 := PlaceAll(l, props, builders, config);
    if |l2.categories| == 1 && |l2.categories[0].groups| == 1 {
      if Accepts(builders, last) {
        LocateFacts(l1, last);
        LocateStructure(l1, last);
        var r := Locate(l1, last);
        assert l2.categories == AddItem(r.layout.categories, r.ci, r.gi, ItemFor(builders, config, last));
        assert r.ci == 0 && r.gi == 0;
      } else {
        var k :| 0 <= k < |props| && Accepts(builders, props[k]);
        assert k < |props| - 1 && init[k] == props[k];
        SingleGroupIsSelected(l, init, builders, config);
      }
    }
  }

  /** A second group in the same category does not clear the selection:
      the first group the page created stays selected. */
  lemma SecondGroupKeepsFirstSelected(p1: ConfigProperty, p2: ConfigProperty, builders: seq<Builder>, config: ConfigModule)
    requires Accepts(builders, p1) && Accepts(builders, p2)
    requires p1.category == p2.category && p1.group != p2.group
    ensures var l := PlaceAll(EmptyLayout, [p1, p2], builders, config);
      |l.categories| == 1 && |l.categories[0].groups| == 2 &&
      l.selected == Some(GroupKey(p1.category, p1.group))
  {
    assert [p1, p2][..1] == [p1] && [p1][..0] == [];
    assert PlaceAll(EmptyLayout, [p1], builders, config) == Place(EmptyLayout, p1, builders, config);
    var l1 := Place(EmptyLayout, p1, builders, config);
    var r1 := Locate(EmptyLayout, p1);
    assert r1.ci == 0 && r1.gi == 0;
    assert |r1.layout.categories| == 1 && |r1.layout.categories[0].groups| == 1;
    assert r1.layout.categories[0].id == p1.category && r1.layout.categories[0].groups[0].id == p1.group;
    assert r1.layout.selected == Some(GroupKey(p1.category, p1.group));
    assert |l1.categories| == 1 && |l1.categories[0].groups| == 1;
    assert UniqueCategoryIds(l1.categories);
    assert l1.categories[0].id == p1.category && l1.categories[0].groups[0].id == p1.group;
    assert l1.selected == Some(GroupKey(p1.category, p1.group));
    var r2 := Locate(l1, p2);
    CategoryAt(l1.categories, 0, p2.category);
    var q := (g: Group) => g.id == p2.group;
    assert !q(l1.categories[0].groups[0]);
    assert GroupIndex(l1.categories[0].groups, p2.group) == None;
    assert |r2.layout.categories| == 1 && |r2.layout.categories[0].groups| == 2;
    assert r2.layout.selected == l1.selected;
  }

  // ---------------------------------------------------------------------
  // The page object and the operations on it

  /** ConfigPageModel: its categories, the item index, the selected group
      and the handlers of its primary (save) and secondary (reset) buttons. */
  class ConfigPageModel {
    var categories: seq<Category>
    var itemsMap: map<string, Item>
    var selectedGroup: Option<GroupKey>
    var primaryButtonEvent: seq<Handler>
    var secondaryButtonEvent: seq<Handler>

    constructor ()
      ensures View() == EmptyLayout
      ensures primaryButtonEvent == [] && secondaryButtonEvent == []
    {
      categories := [];
      itemsMap := map[];
      selectedGroup := None;
      primaryButtonEvent := [];
      secondaryButtonEvent := [];
    }

    function View(): Layout
      reads this
    {
      Layout(categories, itemsMap, selectedGroup)
    }
  }

  /** GetConfigGroup: find or create the property's category and group in
      the page, select the group when it is the page's only one, and return
      where it is. */
  method GetConfigGroup(page: ConfigPageModel, p: ConfigProperty) returns (ci: nat, gi: nat)
    modifies page`categories, page`selectedGroup
    ensures page.View() == Locate(old(page.View()), p).layout
    ensures ci == Locate(old(page.View()), p).ci && gi == Locate(old(page.View()), p).gi
  {
    var cats := page.categories;
    var foundCategory := CategoryIndex(cats, p.category);
    if foundCategory.Some? {
      ci := foundCategory.value;
    } else {
      cats := cats + [Category(p.category, Translate(p.category), [])];
      ci := |cats| - 1;
    }
    var cat := cats[ci];
    var foundGroup := GroupIndex(cat.groups, p.group);
    if foundGroup.Some? {
      gi := foundGroup.value;
    } else {
      cat := cat.(groups := cat.groups + [Group(p.group, Translate(p.group), [])]);
      gi := |cat.groups| - 1;
    }
    page.categories := cats[ci := cat];
    if |page.categories| == 1 && |page.categories[0].groups| == 1 {
      page.selectedGroup := Some(GroupKey(p.category, p.group));
    }
  }

  /** One pass of Append's loop: when some builder accepts the property's
      type, its item is built by the first such builder, appended to the
      property's group and indexed under its key unless the key is taken. */
  method PlaceProperty(page: ConfigPageModel, p: ConfigProperty, builders: seq<Builder>, config: ConfigModule)
    modifies page`categories, page`selectedGroup, page`itemsMap
    ensures page.View() == Place(old(page.View()), p, builders, config)
  {
    var chosen := FirstAccepting(builders, p.propertyType);
    if chosen.Some? {
      var ci, gi := GetConfigGroup(page, p);
      var item := Item(builders[chosen.value].build(config, p), Translate(p.description), Translate(p.header));
      page.categories := AddItem(page.categories, ci, gi, item);
      var key := ItemKey(p);
      if key !in page.itemsMap {
        page.itemsMap := page.itemsMap[key := item];
      }
    }
  }

  /** Append's loop over the cataloged properties, in catalog order. */
  method PlaceEvery(page: ConfigPageModel, catalog: seq<ConfigProperty>, builders: seq<Builder>, config: ConfigModule)
    modifies page`categories, page`selectedGroup, page`itemsMap
    ensures page.View() == PlaceAll(old(page.View()), catalog, builders, config)
  {
    var i := 0;
    while i < |catalog|
      invariant 0 <= i <= |catalog|
      invariant page.View() == PlaceAll(old(page.View()), catalog[..i], builders, config)
    {
      assert catalog[..i + 1][..i] == catalog[..i];
      PlaceProperty(page, catalog[i], builders, config);
      i := i + 1;
    }
    assert catalog[..i] == catalog;
  }

  /** Append: add the module's save and reset handlers, place an item for
      every cataloged property some builder accepts, attach a fresh
      validation interface and run one validate-all pass (whose exception,
      if any, is `verdict` KeyNotFound). */
  method Append(page: ConfigPageModel, config: ConfigModule, registry: BuilderRegistry)
    returns (result: ConfigPageModel, verdict: Outcome)
    requires config.Valid()
    modifies page, config`validationInterface
    ensures result == page
    ensures page.primaryButtonEvent == old(page.primaryButtonEvent) + [SaveHandler(config)]
    ensures page.secondaryButtonEvent == old(page.secondaryButtonEvent) + [ResetHandler(config)]
    ensures page.View() == PlaceAll(old(page.View()), config.schema.catalog, registry.builders, config)
    ensures config.validationInterface != null && fresh(config.validationInterface)
    ensures config.validationInterface.painted ==
              Paints(config.schema.catalog, config.validators, config.values,
                     config.schema.SuccessColour(), config.schema.FailureColour())
    ensures verdict == Evaluate(config.schema.catalog, config.validators, config.values)
  {
    page.primaryButtonEvent := page.primaryButtonEvent + [SaveHandler(config)];
    page.secondaryButtonEvent := page.secondaryButtonEvent + [ResetHandler(config)];
    PlaceEvery(page, config.schema.catalog, registry.builders, config);
    var sink := new ValidationSink();
    config.validationInterface := sink;
    verdict := config.ValidateAll();
    result := page;
  }

  /** Build: Append on a fresh page. */
  method Build(config: ConfigModule, registry: BuilderRegistry) returns (page: ConfigPageModel, verdict: Outcome)
    requires config.Valid()
    modifies config`validationInterface
    ensures fresh(page)
    ensures page.primaryButtonEvent == [SaveHandler(config)] && page.secondaryButtonEvent == [ResetHandler(config)]
    ensures page.View() == PlaceAll(EmptyLayout, config.schema.catalog, registry.builders, config)
    ensures config.validationInterface != null && fresh(config.validationInterface)
    ensures config.validationInterface.painted ==
              Paints(config.schema.catalog, config.validators, config.values,
                     config.schema.SuccessColour(), config.schema.FailureColour())
    ensures verdict == Evaluate(config.schema.catalog, config.validators, config.values)
  {
    page := new ConfigPageModel();
    page, verdict := Append(page, config, registry);
  }
}
