/** The filter pane of the search UI: one group for each filter, one label for each value, and for
    each group a counter of its visible labels that is kept up to date by increments. Labels are
    found again by a key that joins filter and value with a colon, and the key is taken apart at
    its first colon. */
module FilterPane {
  import opened Basics

  /** How many results there are for each value of each filter. */
  type Filters = map<string, map<string, nat>>

  /** The label of one value in the group of its filter. */
  datatype Label = Label(filter: string, value: string)

  /** How a label is shown. */
  datatype Box = Box(hidden: bool, count: nat, checked: bool)

  // ----- keys -----

  function Key(filter: string, value: string): string {
    filter + ":" + value
  }

  function KeyOf(p: Label): string {
    Key(p.filter, p.value)
  }

  /** What is before the first colon of a key, and what is after it. */
  function NameOf(key: string): (r: string)
    ensures ':' !in r
  {
    if key == [] || key[0] == ':' then [] else [key[0]] + NameOf(key[1..])
  }

  function ValueOf(key: string): string {
    if key == [] then [] else if key[0] == ':' then key[1..] else ValueOf(key[1..])
  }

  lemma {:induction false} KeyParts(filter: string, value: string)
    requires ':' !in filter
    ensures NameOf(Key(filter, value)) == filter && ValueOf(Key(filter, value)) == value
  {
    if filter == [] {
      assert Key(filter, value)[1..] == value;
    } else {
      assert Key(filter, value)[1..] == Key(filter[1..], value);
      KeyParts(filter[1..], value);
    }
  }

  /** A name with a colon in it is a name without one, a colon, and more. */
  lemma {:induction false} FirstColon(name: string) returns (before: string, after: string)
    requires ':' in name
    ensures ':' !in before && name == Key(before, after)
  {
    if name[0] == ':' {
      before, after := "", name[1..];
    } else {
      before, after := FirstColon(name[1..]);
      before := [name[0]] + before;
    }
  }

  /** What the key of a filter with a colon is taken for. */
  lemma KeyMisread(before: string, after: string, value: string)
    requires ':' !in before
    ensures NameOf(Key(Key(before, after), value)) == before
    ensures ValueOf(Key(Key(before, after), value)) == Key(after, value)
  {
    assert Key(Key(before, after), value) == Key(before, Key(after, value));
    KeyParts(before, Key(after, value));
  }

  // ----- what is shown -----

  function Count(filters: Option<Filters>, filter: string, value: string): nat {
    if filters.Some? && filter in filters.value && value in filters.value[filter] then filters.value[filter][value] else 0
  }

  predicate Checked(selected: map<string, set<string>>, filter: string, value: string) {
    filter in selected && value in selected[filter]
  }

  /** What decides how the labels are shown. */
  datatype View = View(showEmpty: bool, available: Option<Filters>, total: Option<Filters>,
                       selected: map<string, set<string>>)

  function Shown(view: View, filter: string, value: string): Box {
    var checked := Checked(view.selected, filter, value);
    Box(!(view.showEmpty || Count(view.available, filter, value) > 0 || checked),
        Count(if checked then view.total else view.available, filter, value), checked)
  }

  /** A label that is checked is shown with the number of all results that have its value, and any other
      one with the number of those that are found now; only that one is hidden, when there are none and
      empty labels are not asked for. */
  lemma ShownLabel(view: View, filter: string, value: string, all: nat, found: nat)
    requires Tells(view.total, filter, value, all) && Tells(view.available, filter, value, found)
    ensures filter in view.selected && value in view.selected[filter] ==> Shown(view, filter, value) == Box(false, all, true)
    ensures !(filter in view.selected && value in view.selected[filter]) ==>
              Shown(view, filter, value) == Box(found == 0 && !view.showEmpty, found, false)
  {
  }

  /** The filters, when there are any, list the value with this number, or not at all. */
  ghost predicate Tells(filters: Option<Filters>, filter: string, value: string, n: nat) {
    match filters
    case None => n == 0
    case Some(fs) => if filter in fs && value in fs[filter] then fs[filter][value] == n else n == 0
  }

  /** How the label that a key leads to is shown, for what the key is taken for. */
  function ShownAt(view: View, key: string): Box {
    Shown(view, NameOf(key), ValueOf(key))
  }

  /** What is drawn: the labels, the label for each key, which groups are hidden, and the counters. */
  datatype Drawing = Drawing(labels: map<Label, Box>, elements: map<string, Label>, groups: map<string, bool>,
                             counts: map<string, int>)

  const NOTHING := Drawing(map[], map[], map[], map[])

  function Visible(labels: map<Label, Box>, f: string): set<Label> {
    set p | p in labels && p.filter == f && !labels[p].hidden
  }

  /** The counter of a group is the number of its visible labels. */
  ghost predicate CountsVisible(d: Drawing, f: string) {
    f in d.counts && d.counts[f] == |Visible(d.labels, f)|
  }

  /** A group is hidden exactly when none of its labels is visible. */
  ghost predicate HidesEmpty(d: Drawing, f: string)
    requires f in d.groups
  {
    d.groups[f] <==> Visible(d.labels, f) == {}
  }

  /** Keys lead to labels with these keys. */
  ghost predicate Leads(labels: map<Label, Box>, elements: map<string, Label>) {
    forall k | k in elements :: elements[k] in labels && KeyOf(elements[k]) == k
  }

  /** All labels have keys. */
  ghost predicate Keyed(labels: map<Label, Box>, elements: map<string, Label>) {
    forall p | p in labels :: KeyOf(p) in elements
  }

  ghost predicate WellFormed(d: Drawing) {
    Leads(d.labels, d.elements) && Keyed(d.labels, d.elements) && d.groups.Keys <= d.counts.Keys
  }

  // ----- drawing everything -----

  /** These values of the filters are to be drawn. */
  predicate Wanted(p: Label, filters: Filters, names: set<string>) {
    p.filter in names && p.filter in filters && p.value in filters[p.filter]
  }

  ghost predicate LabelsDrawn(labels: map<Label, Box>, view: View, filters: Filters, names: set<string>) {
    && (forall p :: p in labels <==> Wanted(p, filters, names))
    && (forall p | p in labels :: labels[p] == Shown(view, p.filter, p.value))
  }

  ghost predicate GroupsDrawn(groups: map<string, bool>, filters: Filters, names: set<string>) {
    && (forall f :: f in groups <==> f in names && f in filters && filters[f] != map[])
    && (forall f | f in groups :: !groups[f])
  }

  ghost predicate AllCounted(d: Drawing) {
    forall f | f in d.groups :: CountsVisible(d, f)
  }

  /** These filters are drawn, as they are to be seen. */
  ghost predicate Drawn(d: Drawing, view: View, filters: Filters, names: set<string>) {
    && LabelsDrawn(d.labels, view, filters, names) && GroupsDrawn(d.groups, filters, names)
    && AllCounted(d) && WellFormed(d)
  }

  lemma NothingDrawn(view: View, filters: Filters)
    ensures Drawn(NOTHING, view, filters, {})
  {
  }

  /** `renderFilters` draws all there is. */
  ghost predicate Draws(view: View, d: Drawing) {
    view.total.Some? && Drawn(d, view, view.total.value, view.total.value.Keys)
  }

  /** The labels of one filter so far, next to what was there before. */
  ghost predicate Partly(labels: map<Label, Box>, before: map<Label, Box>, name: string, done: set<string>, view: View) {
    && (forall p :: p in labels <==> p in before || (p.filter == name && p.value in done))
    && (forall p | p in labels :: labels[p] == if p.filter == name then Shown(view, name, p.value) else before[p])
  }

  ghost predicate Unnamed(labels: map<Label, Box>, name: string) {
    forall p | p in labels :: p.filter != name
  }

  lemma OneMoreLabel(labels: map<Label, Box>, before: map<Label, Box>, name: string, done: set<string>, view: View,
                     value: string, p: Label)
    requires Partly(labels, before, name, done, view) && Unnamed(before, name)
    requires value !in done && p == Label(name, value)
    ensures p !in labels && Partly(labels[p := Shown(view, name, value)], before, name, done + {value}, view)
  {
  }

  lemma OneMoreVisible(labels: map<Label, Box>, p: Label, box: Box)
    requires p !in labels
    ensures |Visible(labels[p := box], p.filter)| == |Visible(labels, p.filter)| + if box.hidden then 0 else 1
  {
    var before, after := Visible(labels, p.filter), Visible(labels[p := box], p.filter);
    if box.hidden {
      assert after == before;
    } else {
      assert after == before + {p};
    }
  }

  lemma OneMoreKey(labels: map<Label, Box>, elements: map<string, Label>, p: Label, key: string, box: Box)
    requires Leads(labels, elements) && Keyed(labels, elements) && key == KeyOf(p)
    ensures Leads(labels[p := box], elements[key := p]) && Keyed(labels[p := box], elements[key := p])
  {
  }

  lemma OthersStay(labels: map<Label, Box>, before: map<Label, Box>, name: string, done: set<string>, view: View, f: string)
    requires Partly(labels, before, name, done, view) && f != name
    ensures Visible(labels, f) == Visible(before, f)
  {
  }

  lemma GroupDrawn(labels: map<Label, Box>, elements: map<string, Label>, d: Drawing, name: string, view: View,
                   filters: Filters, names: set<string>, groups: map<string, bool>, counts: map<string, int>)
    requires Drawn(d, view, filters, names) && name in filters && name !in names && filters[name] != map[]
    requires Partly(labels, d.labels, name, filters[name].Keys, view) && Leads(labels, elements) && Keyed(labels, elements)
    requires groups == d.groups[name := false] && counts == d.counts[name := |Visible(labels, name)|]
    ensures Drawn(Drawing(labels, elements, groups, counts), view, filters, names + {name})
  {
    var d' := Drawing(labels, elements, groups, counts);
    forall f | f in groups ensures CountsVisible(d', f) {
      if f != name {
        OthersStay(labels, d.labels, name, filters[name].Keys, view, f);
        assert CountsVisible(d, f);
      }
    }
    assert LabelsDrawn(labels, view, filters, names + {name});
  }

  lemma NoGroupDrawn(d: Drawing, name: string, view: View, filters: Filters, names: set<string>)
    requires Drawn(d, view, filters, names) && name in filters && filters[name] == map[]
    ensures Drawn(d, view, filters, names + {name})
  {
  }

  /** Drawing hides no group, so that a group is right exactly when it has something to show. */
  lemma DrawnIsRight(view: View, d: Drawing, f: string)
    requires Draws(view, d) && f in d.groups
    ensures HidesEmpty(d, f) <==>
              view.showEmpty || exists v | v in view.total.value[f] ::
                Count(view.available, f, v) > 0 || Checked(view.selected, f, v)
  {
    var values := view.total.value[f];
    if v :| v in values && !Shown(view, f, v).hidden {
      assert Label(f, v) in Visible(d.labels, f);
    } else {
      assert Visible(d.labels, f) == {};
    }
    assert exists v :: v in values;
  }

  // ----- updating -----

  /** The keys that are taken for values of the filter, and whose labels appear, or disappear. */
  function Turned(view: View, d: Drawing, keys: set<string>, f: string, hidden: bool): set<string>
    requires WellFormed(d)
  {
    set k | k in keys && k in d.elements && NameOf(k) == f && d.labels[d.elements[k]].hidden != hidden
            && ShownAt(view, k).hidden == hidden
  }

  /** The label is the one that its key leads to. */
  predicate Found(d: Drawing, p: Label) {
    KeyOf(p) in d.elements && d.elements[KeyOf(p)] == p
  }

  ghost predicate LabelsUpdated(view: View, d: Drawing, keys: set<string>, labels: map<Label, Box>) {
    && labels.Keys == d.labels.Keys
    && forall p | p in labels ::
         labels[p] == if Found(d, p) && KeyOf(p) in keys then ShownAt(view, KeyOf(p)) else d.labels[p]
  }

  /** These keys are updated. */
  ghost predicate UpdatedFor(view: View, d: Drawing, keys: set<string>, labels: map<Label, Box>, counts: map<string, int>)
    requires WellFormed(d)
  {
    && LabelsUpdated(view, d, keys, labels)
    && (forall f | f in d.groups ::
          f in counts && counts[f] == d.counts[f] + |Turned(view, d, keys, f, false)| - |Turned(view, d, keys, f, true)|)
  }

  /** `updateFilters` updates every key, and hides the groups whose counters are zero. */
  ghost predicate Updates(view: View, d: Drawing, d': Drawing) {
    && WellFormed(d) && d'.elements == d.elements
    && UpdatedFor(view, d, d.elements.Keys, d'.labels, d'.counts)
    && d'.groups.Keys == d.groups.Keys && forall f | f in d'.groups :: d'.groups[f] <==> d'.counts[f] == 0
  }

  lemma GroupsHidden(view: View, d: Drawing, d': Drawing)
    requires WellFormed(d) && d'.elements == d.elements
    requires UpdatedFor(view, d, d.elements.Keys, d'.labels, d'.counts) && d'.groups.Keys == d.groups.Keys
    requires forall f | f in d'.groups :: d'.groups[f] <==> f !in d'.counts || d'.counts[f] == 0
    ensures Updates(view, d, d')
  {
  }

  lemma NothingUpdated(view: View, d: Drawing)
    requires WellFormed(d)
    ensures UpdatedFor(view, d, {}, d.labels, d.counts)
  {
    forall f, hidden ensures Turned(view, d, {}, f, hidden) == {} {}
  }

  lemma OneKeyMore(done: set<string>, rest: set<string>, keys: set<string>, key: string, more: set<string>)
    requires done + rest == keys && done !! rest && key in rest && more == done + {key}
    ensures key in keys && key !in done && more + (rest - {key}) == keys && more !! rest - {key}
  {
  }

  lemma TurnedOneMore(view: View, d: Drawing, keys: set<string>, f: string, hidden: bool, key: string)
    requires WellFormed(d) && key in d.elements && key !in keys
    ensures |Turned(view, d, keys + {key}, f, hidden)| == |Turned(view, d, keys, f, hidden)|
            + if NameOf(key) == f && d.labels[d.elements[key]].hidden != hidden && ShownAt(view, key).hidden == hidden
              then 1 else 0
  {
    var before, after := Turned(view, d, keys, f, hidden), Turned(view, d, keys + {key}, f, hidden);
    if key in after {
      assert after == before + {key};
    } else {
      assert after == before;
    }
  }

  lemma CountOneMore(view: View, d: Drawing, keys: set<string>, f: string, key: string, more: set<string>, c: int, c': int)
    requires WellFormed(d) && f in d.groups && key in d.elements && key !in keys && more == keys + {key}
    requires c == d.counts[f] + |Turned(view, d, keys, f, false)| - |Turned(view, d, keys, f, true)|
    requires var hidden := d.labels[d.elements[key]].hidden;
      c' == c + if f != NameOf(key) || hidden == ShownAt(view, key).hidden then 0 else if hidden then 1 else -1
    ensures c' == d.counts[f] + |Turned(view, d, more, f, false)| - |Turned(view, d, more, f, true)|
  {
    TurnedOneMore(view, d, keys, f, false, key);
    TurnedOneMore(view, d, keys, f, true, key);
  }

  lemma LabelOneMore(view: View, d: Drawing, keys: set<string>, labels: map<Label, Box>, key: string, p: Label,
                     box: Box, more: set<string>)
    requires WellFormed(d) && LabelsUpdated(view, d, keys, labels) && key in d.elements && key !in keys
    requires p == d.elements[key] && box == ShownAt(view, key) && more == keys + {key}
    ensures LabelsUpdated(view, d, more, labels[p := box]) && labels[p] == d.labels[p]
  {
  }

  lemma UpdatedOneMore(view: View, d: Drawing, keys: set<string>, labels: map<Label, Box>, counts: map<string, int>,
                       key: string, p: Label, box: Box, counts': map<string, int>, more: set<string>)
    requires WellFormed(d) && UpdatedFor(view, d, keys, labels, counts) && key in d.elements && key !in keys
    requires p == d.elements[key] && box == ShownAt(view, key) && more == keys + {key}
    requires forall f | f in d.groups ::
               f in counts' && counts'[f] == counts[f] + if f != NameOf(key) || labels[p].hidden == box.hidden then 0
                                                         else if box.hidden then -1 else 1
    ensures UpdatedFor(view, d, more, labels[p := box], counts')
  {
    LabelOneMore(view, d, keys, labels, key, p, box, more);
    forall f | f in d.groups
      ensures counts'[f] == d.counts[f] + |Turned(view, d, more, f, false)| - |Turned(view, d, more, f, true)|
    {
      CountOneMore(view, d, keys, f, key, more, counts[f], counts'[f]);
    }
  }

  lemma OneLess(all: set<string>, rest: set<string>, x: string, done: set<string>, more: set<string>)
    requires done + rest == all && done !! rest && x in rest && more == done + {x}
    ensures more + (rest - {x}) == all && more !! rest - {x}
  {
  }

  // ----- the pane -----

  class Pane {
    const showEmpty: bool
    var selected: map<string, set<string>>
    var available: Option<Filters>
    var total: Option<Filters>
    /** The labels in their groups. */
    var labels: map<Label, Box>
    /** `filterElements`: the label that was drawn last for each key. */
    var elements: map<string, Label>
    var groups: map<string, bool>
    var counts: map<string, int>
    var rendered: bool

    constructor (showEmpty: bool)
      ensures Whole() == Fresh(showEmpty)
    {
      this.showEmpty := showEmpty;
      selected, available, total, labels, elements, groups, counts, rendered :=
        map[], None, None, map[], map[], map[], map[], false;
    }

    function Seen(): View
      reads `available, `total, `selected
    {
      View(showEmpty, available, total, selected)
    }

    function Now(): Drawing
      reads `labels, `elements, `groups, `counts
    {
      Drawing(labels, elements, groups, counts)
    }

    function Whole(): State
      reads this
    {
      State(Seen(), Now(), rendered)
    }

    /** `updateFilters`: show each label as it is now, move the counters by one where a label
        appears or disappears, and then hide the groups whose counter is zero. */
    method UpdateFilters(ghost view: View, ghost d: Drawing)
      requires WellFormed(d) && view == Seen() && d == Now()
      modifies `labels, `groups, `counts
      ensures Updates(view, d, Now())
    {
      UpdateLabels(view, d);
      HideGroups(d.groups.Keys);
      GroupsHidden(view, d, Now());
    }

    /** The loop over the labels. */
    method UpdateLabels(ghost view: View, ghost d: Drawing)
      requires WellFormed(d) && view == Seen() && d == Now()
      modifies `labels, `counts
      ensures UpdatedFor(view, d, elements.Keys, labels, counts)
    {
      var rest := elements.Keys;
      ghost var keys, done := rest, {};
      NothingUpdated(view, d);
      while rest != {}
        invariant done + rest == keys && done !! rest
        invariant UpdatedFor(view, d, done, labels, counts)
        decreases rest
      {
        var key :| key in rest;
        ghost var more := done + {key};
        OneKeyMore(done, rest, keys, key, more);
        UpdateLabel(key, view, d, done, more);
        rest, done := rest - {key}, more;
      }
      assert done == keys;
    }

    method UpdateLabel(key: string, ghost view: View, ghost d: Drawing, ghost done: set<string>, ghost more: set<string>)
      requires WellFormed(d) && elements == d.elements && key in elements && key !in done && more == done + {key}
      requires view == Seen() && UpdatedFor(view, d, done, labels, counts)
      modifies `labels, `counts
      ensures UpdatedFor(view, d, more, labels, counts)
    {
      var name, value, p := NameOf(key), ValueOf(key), elements[key];
      var amount := Count(available, name, value);
      var checked := Checked(selected, name, value);
      var shown := if checked then Count(total, name, value) else amount;
      var visible := showEmpty || amount > 0 || checked;
      var hidden := labels[p].hidden;
      var next := counts;
      if visible && hidden {
        next := counts[name := (if name in counts then counts[name] else 0) + 1];
      } else if !visible && !hidden {
        next := counts[name := (if name in counts then counts[name] else 1) - 1];
      }
      var box := Box(!visible, shown, checked);
      UpdatedOneMore(view, d, done, labels, counts, key, p, box, next, more);
      labels, counts := labels[p := box], next;
    }

    method HideGroups(ghost names: set<string>)
      requires groups.Keys == names
      modifies `groups
      ensures groups.Keys == names
      ensures forall f | f in groups :: groups[f] <==> f !in counts || counts[f] == 0
    {
      var rest := groups.Keys;
      while rest != {}
        invariant rest <= groups.Keys == names
        invariant forall f | f in groups && f !in rest :: groups[f] <==> f !in counts || counts[f] == 0
        decreases rest
      {
        var name :| name in rest;
        groups := groups[name := name !in counts || counts[name] == 0];
        rest := rest - {name};
      }
    }

    /** `renderFilterGroup`: a group with its labels, counting the visible ones; nothing for
        a filter without values. */
    method RenderFilterGroup(name: string, ghost view: View, ghost filters: Filters, ghost names: set<string>)
      requires total == Some(filters) && view == Seen() && name in filters && name !in names
      requires Drawn(Now(), view, filters, names)
      modifies `labels, `elements, `groups, `counts
      ensures Drawn(Now(), view, filters, names + {name})
    {
      ghost var d := Now();
      if total.value[name] == map[] {
        NoGroupDrawn(d, name, view, filters, names);
        return;
      }
      groups := groups[name := false];
      var visible := RenderLabels(name, view, filters[name].Keys, labels);
      counts := counts[name := visible];
      GroupDrawn(labels, elements, d, name, view, filters, names, groups, counts);
    }

    /** The loop of `renderFilterGroup`, over the values of the filter. */
    method RenderLabels(name: string, ghost view: View, ghost values: set<string>, ghost before: map<Label, Box>)
      returns (visible: nat)
      requires total.Some? && name in total.value && values == total.value[name].Keys && view == Seen()
      requires labels == before && Unnamed(before, name) && Leads(before, elements) && Keyed(before, elements)
      modifies `labels, `elements
      ensures PartlyCounted(before, name, values, view, visible)
    {
      var rest := total.value[name].Keys;
      ghost var done: set<string> := {};
      visible := 0;
      NoLabelYet(before, name, view);
      while rest != {}
        invariant done + rest == values && done !! rest
        invariant view == Seen() && PartlyCounted(before, name, done, view, visible)
        decreases rest
      {
        var value :| value in rest;
        ghost var more := done + {value};
        visible := RenderLabel(name, value, visible, view, before, done, more);
        OneLess(values, rest, value, done, more);
        rest, done := rest - {value}, more;
      }
      assert done == values;
    }

    ghost predicate PartlyCounted(before: map<Label, Box>, name: string, done: set<string>, view: View, visible: nat)
      reads `labels, `elements
    {
      && Partly(labels, before, name, done, view) && visible == |Visible(labels, name)|
      && Leads(labels, elements) && Keyed(labels, elements)
    }

    lemma NoLabelYet(before: map<Label, Box>, name: string, view: View)
      requires labels == before && Unnamed(before, name) && Leads(labels, elements) && Keyed(labels, elements)
      ensures PartlyCounted(before, name, {}, view, 0)
    {
      assert Visible(labels, name) == {};
    }

    /** `renderCheckbox`, and the counting of what is visible. */
    method RenderLabel(name: string, value: string, count: nat, ghost view: View, ghost before: map<Label, Box>,
                       ghost done: set<string>, ghost more: set<string>)
      returns (visible: nat)
      requires PartlyCounted(before, name, done, view, count) && view == Seen()
      requires Unnamed(before, name) && value !in done && more == done + {value}
      modifies `labels, `elements
      ensures PartlyCounted(before, name, more, view, visible)
    {
      var box, p, key := Shown(Seen(), name, value), Label(name, value), Key(name, value);
      OneMoreLabel(labels, before, name, done, Seen(), value, p);
      OneMoreVisible(labels, p, box);
      OneMoreKey(labels, elements, p, key, box);
      visible := if box.hidden then count else count + 1;
      labels, elements := labels[p := box], elements[key := p];
    }

    /** `renderFilters`: everything anew, with no group hidden yet. */
    method RenderFilters()
      requires total.Some?
      modifies `labels, `elements, `groups, `counts, `rendered
      ensures rendered && Draws(Seen(), Now())
    {
      labels, elements, groups, counts := map[], map[], map[], map[];
      var rest := total.value.Keys;
      ghost var names, done, view, filters := rest, {}, Seen(), total.value;
      NothingDrawn(view, filters);
      while rest != {}
        invariant done + rest == names && done !! rest && view == Seen()
        invariant Drawn(Now(), view, filters, done)
        decreases rest
      {
        var name :| name in rest;
        ghost var more := done + {name};
        RenderFilterGroup(name, view, filters, done);
        rest, done := rest - {name}, more;
      }
      assert done == names;
      rendered := true;
    }

    /** `handleFiltersUpdate`: draw everything when there is something new, and update it otherwise. */
    method HandleFiltersUpdate()
      requires WellFormed(Now())
      modifies `labels, `elements, `groups, `counts, `rendered
      ensures Handles(Seen(), old(Now()), old(rendered), Now(), rendered)
    {
      if total.None? || total.value == map[] { return; }
      if !rendered || StructureChanged(Seen(), Now()) {
        RenderFilters();
      } else {
        UpdateFilters(Seen(), Now());
      }
    }

    /** The answer to a search changed how many results there are for each value. */
    method OnFilters(available: Filters, total: Filters)
      requires WellFormed(Now())
      modifies this
      ensures Step(old(Whole()), FiltersChanged(available, total), Whole()) && WellFormed(Now())
    {
      this.available, this.total := Some(available), Some(total);
      HandleFiltersUpdate();
      if Updates(Seen(), old(Now()), Now()) { UpdateIsWellFormed(Seen(), old(Now()), Now()); }
    }

    /** A search was made with these filters selected. */
    method OnSearch(filters: map<string, seq<string>>)
      requires WellFormed(Now())
      modifies this
      ensures Step(old(Whole()), Searched(filters), Whole()) && WellFormed(Now())
    {
      selected := Selection(filters);
      if rendered {
        UpdateFilters(Seen(), Now());
        UpdateIsWellFormed(Seen(), old(Now()), Now());
      }
    }

    /** Any sequence of filter and search events is a run of the pane. */
    method Replay(events: seq<Event>) returns (ghost states: seq<State>)
      requires WellFormed(Now())
      modifies this
      ensures Run(states, events) && states[0] == old(Whole()) && states[|events|] == Whole()
    {
      states := [Whole()];
      for k := 0 to |events|
        invariant WellFormed(Now()) && Run(states, events[..k])
        invariant states[0] == old(Whole()) && states[k] == Whole()
      {
        ghost var before := states;
        match events[k] {
          case FiltersChanged(available, total) => OnFilters(available, total);
          case Searched(filters) => OnSearch(filters);
        }
        states := states + [Whole()];
        assert events[..k + 1] == events[..k] + [events[k]];
        RunOneMore(before, events[..k], events[k], Whole());
      }
      assert events[..|events|] == events;
    }
  }

  // ----- runs -----

  datatype Event = FiltersChanged(available: Filters, total: Filters) | Searched(filters: map<string, seq<string>>)

  datatype State = State(view: View, drawing: Drawing, rendered: bool)

  function Fresh(showEmpty: bool): State {
    State(View(showEmpty, None, None, map[]), NOTHING, false)
  }

  function Selection(filters: map<string, seq<string>>): map<string, set<string>> {
    map f | f in filters && filters[f] != [] :: set v | v in filters[f]
  }

  /** Checked is what is searched for. */
  lemma SelectedIsChecked(filters: map<string, seq<string>>, f: string, v: string)
    ensures Checked(Selection(filters), f, v) <==> f in filters && v in filters[f]
  {
    assert f in filters && v in filters[f] ==> f in Selection(filters);
  }

  /** `hasStructureChanged`: there are other groups, or values without a label. */
  predicate StructureChanged(view: View, d: Drawing)
    requires view.total.Some?
  {
    view.total.value.Keys != d.groups.Keys
    || exists f, v | f in view.total.value && v in view.total.value[f] :: Key(f, v) !in d.elements
  }

  ghost predicate Handles(view: View, d: Drawing, rendered: bool, d': Drawing, rendered': bool) {
    if view.total.None? || view.total.value == map[] then d' == d && rendered' == rendered
    else rendered' && if !rendered || StructureChanged(view, d) then Draws(view, d') else Updates(view, d, d')
  }

  ghost predicate Step(s: State, e: Event, s': State) {
    match e
    case FiltersChanged(available, total) =>
      && s'.view == s.view.(available := Some(available), total := Some(total))
      && Handles(s'.view, s.drawing, s.rendered, s'.drawing, s'.rendered)
    case Searched(filters) =>
      && s'.view == s.view.(selected := Selection(filters)) && s'.rendered == s.rendered
      && if s.rendered then Updates(s'.view, s.drawing, s'.drawing) else s'.drawing == s.drawing
  }

  /** The event leads to an update, not to a drawing. */
  ghost predicate Updated(s: State, e: Event) {
    s.rendered && match e
                  case FiltersChanged(available, total) =>
                    var view := s.view.(available := Some(available), total := Some(total));
                    total != map[] && !StructureChanged(view, s.drawing)
                  case Searched(_) => true
  }

  ghost predicate Run(states: seq<State>, events: seq<Event>) {
    |states| == |events| + 1 && forall i | 0 <= i < |events| :: Step(states[i], events[i], states[i + 1])
  }

  lemma RunOneMore(states: seq<State>, events: seq<Event>, e: Event, s: State)
    requires Run(states, events) && Step(states[|events|], e, s)
    ensures Run(states + [s], events + [e])
  {
  }

  // ----- which groups are always right -----

  /** The keys of the filter are taken for what they are, and no keys of other filters are
      taken for keys of this one. */
  predicate Unmistaken(f: string, names: set<string>) {
    ':' !in f && forall g | g in names :: !(Key(f, "") <= g)
  }

  lemma NameTakenFor(p: Label, f: string, names: set<string>)
    requires Unmistaken(f, names) && p.filter in names
    ensures NameOf(KeyOf(p)) == f <==> p.filter == f
    ensures p.filter == f ==> ValueOf(KeyOf(p)) == p.value
  {
    if ':' in p.filter {
      var before, after := FirstColon(p.filter);
      KeyMisread(before, after, p.value);
      assert p.filter == Key(before, "") + after;
    } else {
      KeyParts(p.filter, p.value);
    }
  }

  ghost predicate NamedIn(d: Drawing, names: set<string>) {
    forall p | p in d.labels :: p.filter in names
  }

  /** Every label of the group is found by its key, and shown for what it is. */
  lemma LabelFound(view: View, d: Drawing, p: Label, f: string, names: set<string>)
    requires WellFormed(d) && NamedIn(d, names) && Unmistaken(f, names) && p in d.labels && p.filter == f
    ensures Found(d, p) && ShownAt(view, KeyOf(p)) == Shown(view, f, p.value)
  {
    var q := d.elements[KeyOf(p)];
    NameTakenFor(p, f, names);
    NameTakenFor(q, f, names);
  }

  /** The labels of a group that appear, or disappear. */
  function Changed(d: Drawing, d': Drawing, f: string, hidden: bool): set<Label> {
    set p | p in d.labels && p.filter == f && p in d'.labels && d.labels[p].hidden != hidden && d'.labels[p].hidden == hidden
  }

  lemma {:induction false} SameSize(labels: set<Label>, keys: set<string>, d: Drawing)
    requires forall p | p in labels :: KeyOf(p) in keys && Found(d, p)
    requires forall k | k in keys :: k in d.elements && d.elements[k] in labels && KeyOf(d.elements[k]) == k
    ensures |labels| == |keys|
    decreases keys
  {
    if keys == {} {
      assert labels == {};
    } else {
      var k :| k in keys;
      SameSize(labels - {d.elements[k]}, keys - {k}, d);
    }
  }

  lemma ChangesAreCounted(view: View, d: Drawing, d': Drawing, f: string, names: set<string>, hidden: bool)
    requires Updates(view, d, d') && NamedIn(d, names) && Unmistaken(f, names)
    ensures |Changed(d, d', f, hidden)| == |Turned(view, d, d.elements.Keys, f, hidden)|
  {
    forall p | p in d.labels && p.filter == f
      ensures Found(d, p) && NameOf(KeyOf(p)) == f && d'.labels[p] == ShownAt(view, KeyOf(p))
    {
      LabelFound(view, d, p, f, names);
      NameTakenFor(p, f, names);
    }
    forall k | k in d.elements && NameOf(k) == f ensures d.elements[k].filter == f {
      NameTakenFor(d.elements[k], f, names);
    }
    SameSize(Changed(d, d', f, hidden), Turned(view, d, d.elements.Keys, f, hidden), d);
  }

  lemma VisibleChanges(d: Drawing, d': Drawing, f: string)
    requires d.labels.Keys == d'.labels.Keys
    ensures |Visible(d'.labels, f)| == |Visible(d.labels, f)| + |Changed(d, d', f, false)| - |Changed(d, d', f, true)|
  {
    var stay := Visible(d.labels, f) - Changed(d, d', f, true);
    assert Visible(d'.labels, f) == stay + Changed(d, d', f, false);
    assert Visible(d.labels, f) == stay + Changed(d, d', f, true);
  }

  /** A counter that was right is right after an update. */
  lemma UpdateCounts(view: View, d: Drawing, d': Drawing, f: string, names: set<string>)
    requires Updates(view, d, d') && NamedIn(d, names) && Unmistaken(f, names)
    requires f in d.groups && CountsVisible(d, f)
    ensures CountsVisible(d', f) && HidesEmpty(d', f)
  {
    ChangesAreCounted(view, d, d', f, names, false);
    ChangesAreCounted(view, d, d', f, names, true);
    VisibleChanges(d, d', f);
  }

  lemma UpdateIsWellFormed(view: View, d: Drawing, d': Drawing)
    requires Updates(view, d, d')
    ensures WellFormed(d')
  {
  }

  ghost predicate AllVisible(d: Drawing) {
    forall p | p in d.labels :: !d.labels[p].hidden
  }

  /** Where empty values are shown, nothing ever disappears. */
  lemma UpdateOfAll(view: View, d: Drawing, d': Drawing, f: string)
    requires Updates(view, d, d') && view.showEmpty && AllVisible(d) && f in d.groups && CountsVisible(d, f)
    requires d.counts[f] > 0
    ensures AllVisible(d') && CountsVisible(d', f) && d'.counts[f] > 0 && HidesEmpty(d', f)
  {
    assert Visible(d'.labels, f) == Visible(d.labels, f);
    assert Turned(view, d, d.elements.Keys, f, false) == {} == Turned(view, d, d.elements.Keys, f, true);
  }

  ghost predicate Safe(showEmpty: bool, f: string, names: set<string>) {
    showEmpty || Unmistaken(f, names)
  }

  /** What every event keeps. */
  ghost predicate Kept(s: State, names: set<string>, showEmpty: bool) {
    && s.view.showEmpty == showEmpty && WellFormed(s.drawing) && NamedIn(s.drawing, names)
    && (showEmpty ==> AllVisible(s.drawing))
    && forall f | f in s.drawing.groups && Safe(showEmpty, f, names) ::
         CountsVisible(s.drawing, f) && (showEmpty ==> s.drawing.counts[f] > 0)
  }

  predicate NamesIn(events: seq<Event>, names: set<string>) {
    forall i | 0 <= i < |events| :: events[i].FiltersChanged? ==> events[i].total.Keys <= names
  }

  lemma UpdateKeeps(s: State, view: View, s': State, names: set<string>, showEmpty: bool)
    requires Kept(s, names, showEmpty) && view == s'.view && view.showEmpty == showEmpty
    requires Updates(view, s.drawing, s'.drawing)
    ensures Kept(s', names, showEmpty)
    ensures forall f | f in s'.drawing.groups && Safe(showEmpty, f, names) :: HidesEmpty(s'.drawing, f)
  {
    UpdateIsWellFormed(view, s.drawing, s'.drawing);
    forall f | f in s.drawing.groups && Safe(showEmpty, f, names)
      ensures CountsVisible(s'.drawing, f) && HidesEmpty(s'.drawing, f)
    {
      if showEmpty {
        UpdateOfAll(view, s.drawing, s'.drawing, f);
      } else {
        UpdateCounts(view, s.drawing, s'.drawing, f, names);
      }
    }
  }

  lemma DrawingKeeps(s: State, names: set<string>, showEmpty: bool)
    requires s.view.showEmpty == showEmpty && Draws(s.view, s.drawing) && s.view.total.value.Keys <= names
    ensures Kept(s, names, showEmpty)
  {
    var d, total := s.drawing, s.view.total.value;
    forall f | f in d.groups ensures CountsVisible(d, f) && (showEmpty ==> d.counts[f] > 0) {
      assert CountsVisible(d, f);
      if showEmpty {
        var v :| v in total[f];
        assert Wanted(Label(f, v), total, total.Keys);
        assert Label(f, v) in Visible(d.labels, f);
      }
    }
  }

  lemma StepKeeps(s: State, e: Event, s': State, names: set<string>, showEmpty: bool)
    requires Kept(s, names, showEmpty) && Step(s, e, s') && (e.FiltersChanged? ==> e.total.Keys <= names)
    ensures Kept(s', names, showEmpty)
    ensures Updated(s, e) ==>
              forall f | f in s'.drawing.groups && Safe(showEmpty, f, names) :: HidesEmpty(s'.drawing, f)
  {
    if Updated(s, e) {
      UpdateKeeps(s, s'.view, s', names, showEmpty);
    } else if e.FiltersChanged? && e.total != map[] {
      DrawingKeeps(s', names, showEmpty);
    } else {
      assert s'.drawing == s.drawing;
    }
  }

  /** The labels of the filter are shown as they are to be seen now. */
  ghost predicate ShownNow(view: View, d: Drawing, f: string) {
    forall p | p in d.labels && p.filter == f :: d.labels[p] == Shown(view, f, p.value)
  }

  /** Every value of the filter has a label. */
  ghost predicate AllThere(view: View, d: Drawing, f: string) {
    view.total.Some? && f in view.total.value ==> forall v | v in view.total.value[f] :: Label(f, v) in d.labels
  }

  /** Whatever draws or updates shows every label of an unmistaken filter as it is now, and new counts
      find a label for each of its values. */
  lemma StepShows(s: State, e: Event, s': State, names: set<string>, showEmpty: bool, f: string)
    requires Kept(s, names, showEmpty) && Step(s, e, s') && f in names && Unmistaken(f, names)
    requires if e.FiltersChanged? then e.total != map[] else s.rendered
    ensures ShownNow(s'.view, s'.drawing, f) && (e.FiltersChanged? ==> AllThere(s'.view, s'.drawing, f))
  {
    var d, d', view := s.drawing, s'.drawing, s'.view;
    if Updated(s, e) {
      forall p | p in d'.labels && p.filter == f ensures d'.labels[p] == Shown(view, f, p.value) {
        LabelFound(view, d, p, f, names);
      }
      if e.FiltersChanged? && f in e.total {
        forall v | v in e.total[f] ensures Label(f, v) in d.labels {
          LabelThere(d, f, v, names);
        }
      }
    } else {
      forall p | Wanted(p, e.total, e.total.Keys) ensures p in d'.labels {}
    }
  }

  lemma LabelThere(d: Drawing, f: string, v: string, names: set<string>)
    requires WellFormed(d) && NamedIn(d, names) && f in names && Unmistaken(f, names) && Key(f, v) in d.elements
    ensures Label(f, v) in d.labels
  {
    var q := d.elements[Key(f, v)];
    NameTakenFor(Label(f, v), f, names);
    NameTakenFor(q, f, names);
  }

  /** After any events the counters of all safe groups are right, and after an update exactly the
      empty ones of these are hidden. */
  lemma {:induction false} RunIsRight(states: seq<State>, events: seq<Event>, names: set<string>, showEmpty: bool)
    requires Run(states, events) && states[0] == Fresh(showEmpty) && NamesIn(events, names)
    ensures Kept(states[|events|], names, showEmpty)
    ensures events != [] && Updated(states[|events| - 1], events[|events| - 1]) ==>
              forall f | f in states[|events|].drawing.groups && Safe(showEmpty, f, names) ::
                HidesEmpty(states[|events|].drawing, f)
    decreases |events|
  {
    var n := |events| - 1;
    if events != [] {
      RunIsRight(states[..n + 1], events[..n], names, showEmpty);
      StepKeeps(states[n], events[n], states[n + 1], names, showEmpty);
    }
  }

  /** Whatever happens, after an update the group is hidden exactly when it has nothing to show. */
  ghost predicate AlwaysRight(showEmpty: bool, names: set<string>, f: string) {
    forall states: seq<State>, events: seq<Event> | Run(states, events) && states[0] == Fresh(showEmpty) && NamesIn(events, names)
                            && events != [] && Updated(states[|events| - 1], events[|events| - 1])
                            && f in states[|events|].drawing.groups ::
      HidesEmpty(states[|events|].drawing, f)
  }

  // ----- groups that go wrong -----

  /** One result for the empty value of each of these filters. */
  function OneEach(f: string, g: string): Filters {
    map[f := map["" := 1], g := map["" := 1]]
  }

  function OneEachView(f: string, g: string): View {
    View(false, Some(OneEach(f, g)), Some(OneEach(f, g)), map[])
  }

  /** How any value is shown there. */
  lemma OneEachShown(f: string, g: string, name: string, value: string)
    ensures Shown(OneEachView(f, g), name, value) ==
              if (name == f || name == g) && value == "" then Box(false, 1, false) else Box(true, 0, false)
  {
  }

  /** Both labels are drawn, and visible, and found by their keys. */
  lemma BothDrawn(f: string, g: string, d: Drawing, p: Label, q: Label)
    requires Draws(OneEachView(f, g), d) && p == Label(f, "") && q == Label(g, "") && (p == q || KeyOf(p) != KeyOf(q))
    ensures d.labels.Keys == {p, q} && !d.labels[p].hidden && !d.labels[q].hidden
    ensures d.elements.Keys == {KeyOf(p), KeyOf(q)} && Found(d, p) && Found(d, q)
    ensures d.groups.Keys == {f, g} && f in d.counts && d.counts[f] == 1
  {
    BothLabels(f, g, d, p, q);
    BothKeys(d, p, q);
    assert f in OneEach(f, g) && g in OneEach(f, g);
    assert Visible(d.labels, f) == {p};
    assert CountsVisible(d, f);
  }

  lemma BothLabels(f: string, g: string, d: Drawing, p: Label, q: Label)
    requires LabelsDrawn(d.labels, OneEachView(f, g), OneEach(f, g), OneEach(f, g).Keys)
    requires p == Label(f, "") && q == Label(g, "")
    ensures d.labels.Keys == {p, q} && !d.labels[p].hidden && !d.labels[q].hidden
  {
    var filters := OneEach(f, g);
    forall x ensures x in d.labels <==> x == p || x == q {
      assert x in d.labels <==> Wanted(x, filters, filters.Keys);
    }
    OneEachShown(f, g, f, "");
    OneEachShown(f, g, g, "");
  }

  lemma BothKeys(d: Drawing, p: Label, q: Label)
    requires WellFormed(d) && d.labels.Keys == {p, q} && (p == q || KeyOf(p) != KeyOf(q))
    ensures d.elements.Keys == {KeyOf(p), KeyOf(q)} && Found(d, p) && Found(d, q)
  {
    forall k | k in d.elements ensures k == KeyOf(p) || k == KeyOf(q) {
      assert d.elements[k] in d.labels;
    }
  }

  /** A filter with a colon in its name: its label disappears, and its group stays. */
  lemma ColonFails(f: string, d: Drawing, d': Drawing)
    requires ':' in f && Draws(OneEachView(f, f), d) && Updates(OneEachView(f, f), d, d')
    ensures f in d'.groups && !d'.groups[f] && Visible(d'.labels, f) == {}
  {
    var view, p := OneEachView(f, f), Label(f, "");
    BothDrawn(f, f, d, p, p);
    var before, after := FirstColon(f);
    KeyMisread(before, after, "");
    OneEachShown(f, f, before, Key(after, ""));
    assert NameOf(KeyOf(p)) == before != f;
    assert Turned(view, d, d.elements.Keys, f, false) == {} == Turned(view, d, d.elements.Keys, f, true);
  }

  /** A filter whose name is followed by a colon in another one's: the other one's label
      disappears, and this one's group does. */
  lemma NamesakeFails(f: string, g: string, d: Drawing, d': Drawing)
    requires ':' !in f && Key(f, "") <= g && Draws(OneEachView(f, g), d) && Updates(OneEachView(f, g), d, d')
    ensures f in d'.groups && d'.groups[f] && Visible(d'.labels, f) != {}
  {
    var view, p, q := OneEachView(f, g), Label(f, ""), Label(g, "");
    NamesakeKeys(f, g, p, q);
    BothDrawn(f, g, d, p, q);
    OneEachShown(f, g, f, "");
    OneEachShown(f, g, f, ValueOf(KeyOf(q)));
    OneTurns(view, d, f, KeyOf(p), KeyOf(q));
    assert p in Visible(d'.labels, f);
  }

  lemma NamesakeKeys(f: string, g: string, p: Label, q: Label)
    requires ':' !in f && Key(f, "") <= g && p == Label(f, "") && q == Label(g, "")
    ensures NameOf(KeyOf(p)) == f == NameOf(KeyOf(q)) && ValueOf(KeyOf(p)) == "" != ValueOf(KeyOf(q))
    ensures KeyOf(p) != KeyOf(q)
  {
    var after := g[|f| + 1..];
    assert g == Key(f, after);
    KeyMisread(f, after, "");
    KeyParts(f, "");
    assert |Key(after, "")| > 0;
  }

  lemma OneTurns(view: View, d: Drawing, f: string, stays: string, goes: string)
    requires WellFormed(d) && d.elements.Keys == {stays, goes} && NameOf(goes) == f
    requires !d.labels[d.elements[stays]].hidden && !d.labels[d.elements[goes]].hidden
    requires !ShownAt(view, stays).hidden && ShownAt(view, goes).hidden
    ensures Turned(view, d, d.elements.Keys, f, false) == {} && Turned(view, d, d.elements.Keys, f, true) == {goes}
  {
  }

  // ----- the exact condition -----

  function OneEachDrawing(f: string, g: string): Drawing {
    var p, q, box := Label(f, ""), Label(g, ""), Box(false, 1, false);
    Drawing(map[p := box, q := box], map[KeyOf(p) := p, KeyOf(q) := q], map[f := false, g := false], map[f := 1, g := 1])
  }

  lemma OneEachDraws(f: string, g: string)
    requires f == g || KeyOf(Label(f, "")) != KeyOf(Label(g, ""))
    ensures Draws(OneEachView(f, g), OneEachDrawing(f, g))
  {
    var d, filters := OneEachDrawing(f, g), OneEach(f, g);
    OneEachShown(f, g, f, "");
    OneEachShown(f, g, g, "");
    forall p ensures p in d.labels <==> Wanted(p, filters, filters.Keys) {}
    forall name | name in d.groups ensures CountsVisible(d, name) {
      assert Visible(d.labels, name) == {Label(name, "")};
    }
  }

  /** What an update makes of a drawing. */
  function UpdateOf(view: View, d: Drawing): Drawing
    requires WellFormed(d)
  {
    var counts := map f | f in d.groups ::
      d.counts[f] + |Turned(view, d, d.elements.Keys, f, false)| - |Turned(view, d, d.elements.Keys, f, true)|;
    Drawing(map p | p in d.labels :: if Found(d, p) then ShownAt(view, KeyOf(p)) else d.labels[p], d.elements,
            map f | f in d.groups :: counts[f] == 0, counts)
  }

  lemma UpdateOfUpdates(view: View, d: Drawing)
    requires WellFormed(d)
    ensures Updates(view, d, UpdateOf(view, d))
  {
  }

  /** Drawing these filters, and a search after that, is a run. */
  lemma DrawAndSearch(f: string, g: string, d: Drawing, d': Drawing) returns (states: seq<State>, events: seq<Event>)
    requires Draws(OneEachView(f, g), d) && Updates(OneEachView(f, g), d, d')
    ensures Run(states, events) && states[0] == Fresh(false) && NamesIn(events, {f, g})
    ensures |events| == 2 && Updated(states[1], events[1]) && states[2].drawing == d'
  {
    var view, filters := OneEachView(f, g), OneEach(f, g);
    events := [FiltersChanged(filters, filters), Searched(map[])];
    states := [Fresh(false), State(view, d, true), State(view, d', true)];
    assert f in filters;
    assert Step(states[0], events[0], states[1]);
    assert Selection(map[]) == map[];
    assert Step(states[1], events[1], states[2]);
  }

  lemma ColonGoesWrong(f: string) returns (states: seq<State>, events: seq<Event>)
    requires ':' in f
    ensures GoesWrong(states, events, {f, f}, f)
  {
    var view, d := OneEachView(f, f), OneEachDrawing(f, f);
    OneEachDraws(f, f);
    UpdateOfUpdates(view, d);
    ColonFails(f, d, UpdateOf(view, d));
    states, events := DrawAndSearch(f, f, d, UpdateOf(view, d));
  }

  lemma NamesakeGoesWrong(f: string, g: string) returns (states: seq<State>, events: seq<Event>)
    requires ':' !in f && Key(f, "") <= g
    ensures GoesWrong(states, events, {f, g}, f)
  {
    var view, d := OneEachView(f, g), OneEachDrawing(f, g);
    NamesakeKeys(f, g, Label(f, ""), Label(g, ""));
    OneEachDraws(f, g);
    UpdateOfUpdates(view, d);
    NamesakeFails(f, g, d, UpdateOf(view, d));
    states, events := DrawAndSearch(f, g, d, UpdateOf(view, d));
  }

  /** A run with these filters ends with an update after which the group is hidden although it has
      something to show, or shown although it is empty. */
  ghost predicate GoesWrong(states: seq<State>, events: seq<Event>, names: set<string>, f: string) {
    && Run(states, events) && states[0] == Fresh(false) && NamesIn(events, names)
    && |events| == 2 && Updated(states[1], events[1])
    && f in states[2].drawing.groups && !HidesEmpty(states[2].drawing, f)
  }

  lemma MoreNames(states: seq<State>, events: seq<Event>, few: set<string>, names: set<string>, f: string)
    requires GoesWrong(states, events, few, f) && few <= names
    ensures GoesWrong(states, events, names, f)
  {
    forall i | 0 <= i < |events| && events[i].FiltersChanged? ensures events[i].total.Keys <= names {
      assert events[i].total.Keys <= few;
    }
  }

  /** A group that is not safe goes wrong in some run. */
  lemma UnsafeGoesWrong(names: set<string>, f: string) returns (states: seq<State>, events: seq<Event>)
    requires f in names && !Unmistaken(f, names)
    ensures GoesWrong(states, events, names, f)
  {
    if ':' in f {
      states, events := ColonGoesWrong(f);
      MoreNames(states, events, {f, f}, names, f);
    } else {
      var g :| g in names && Key(f, "") <= g;
      states, events := NamesakeGoesWrong(f, g);
      MoreNames(states, events, {f, g}, names, f);
    }
  }

  /** The group of a filter is hidden exactly when it is empty, after every update of every run, if
      and only if empty values are shown, or the filter has no colon in its name and no other
      filter's name begins with this one and a colon. */
  lemma RightExactly(showEmpty: bool, names: set<string>, f: string)
    requires f in names
    ensures AlwaysRight(showEmpty, names, f) <==> Safe(showEmpty, f, names)
  {
    if Safe(showEmpty, f, names) {
      forall states: seq<State>, events: seq<Event>
        | Run(states, events) && states[0] == Fresh(showEmpty) && NamesIn(events, names)
          && events != [] && Updated(states[|events| - 1], events[|events| - 1])
          && f in states[|events|].drawing.groups
        ensures HidesEmpty(states[|events|].drawing, f)
      {
        RunIsRight(states, events, names, showEmpty);
      }
    } else {
      var states, events := UnsafeGoesWrong(names, f);
      assert !HidesEmpty(states[|events|].drawing, f);
    }
  }

  /** All groups are always right if and only if empty values are shown or no filter has a colon
      in its name. */
  lemma AllRightExactly(showEmpty: bool, names: set<string>)
    ensures (forall f | f in names :: AlwaysRight(showEmpty, names, f))
       <==> showEmpty || forall f | f in names :: ':' !in f
  {
    forall f | f in names ensures AlwaysRight(showEmpty, names, f) <==> Safe(showEmpty, f, names) {
      RightExactly(showEmpty, names, f);
    }
    forall f, g | f in names && g in names && Key(f, "") <= g ensures ':' in g {
      assert g[|f|] == ':';
    }
  }

  /** A pane that goes wrong: the filter has a colon in its name, and there is one result for it. */
  method ColonGroup(f: string) returns (pane: Pane)
    requires ':' in f
    ensures fresh(pane)
    ensures f in pane.groups && !pane.groups[f] && Visible(pane.labels, f) == {}
  {
    pane := new Pane(false);
    var filters := OneEach(f, f);
    assert f in filters;
    pane.OnFilters(filters, filters);
    ghost var d := pane.Now();
    assert pane.Seen() == OneEachView(f, f) && Draws(OneEachView(f, f), d);
    pane.OnSearch(map[]);
    assert Selection(map[]) == map[];
    ColonFails(f, d, pane.Now());
  }
}
