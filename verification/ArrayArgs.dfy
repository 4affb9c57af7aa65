/** Array-valued flags: "+a,b" adds items to a list in the configuration, "-a,b"
    deletes them and ":a,b" replaces the list. */
module ArrayArgs {
  import opened Options
  import opened Text

  datatype Kind = Add | Del | Replace

  datatype Value = Value(kind: Kind, items: seq<string>)

  const UNSET := Value(Add, [])

  function KindChar(kind: Kind): char {
    match kind case Add => '+' case Del => '-' case Replace => ':'
  }

  function CharKind(c: char): Option<Kind> {
    if c == '+' then Some(Add) else if c == '-' then Some(Del) else if c == ':' then Some(Replace) else None
  }

  /** ArrayTransformValue.String. */
  function Show(v: Value): string {
    [KindChar(v.kind)] + Join(v.items, ',')
  }

  /** What ArrayTransformValue.Set leaves behind, and whether it succeeds. The
      kind is stored before the items are looked at, and an argument without
      items keeps the old ones. */
  function AfterSet(v: Value, arg: string): (Value, bool) {
    if arg == "" then (v, true)
    else
      match CharKind(arg[0])
      case None => (v, false)
      case Some(kind) =>
        if |arg| == 1 then (v.(kind := kind), true)
        else
          var parts := Split(arg[1..], ',');
          if "" in parts then (v.(kind := kind), false) else (Value(kind, parts), true)
  }

  /** A value some run of successful Set calls on a fresh flag can produce. */
  ghost predicate Settable(v: Value) {
    exists args: seq<string> :: SetAll(UNSET, args) == (v, true)
  }

  function SetAll(v: Value, args: seq<string>): (Value, bool)
    decreases |args|
  {
    if args == [] then (v, true)
    else
      var (before, ok) := SetAll(v, args[..|args| - 1]);
      if !ok then (before, false) else AfterSet(before, args[|args| - 1])
  }

  predicate ItemsAreClean(v: Value) {
    forall item <- v.items :: item != "" && ',' !in item
  }

  lemma {:induction false} SetAllKeepsItemsClean(args: seq<string>)
    requires SetAll(UNSET, args).1
    ensures ItemsAreClean(SetAll(UNSET, args).0)
    decreases |args|
  {
    if args != [] {
      SetAllKeepsItemsClean(args[..|args| - 1]);
    }
  }

  /** However a flag came by its value, setting a fresh flag from its printed form
      gives the value back: both the kind and the items. */
  lemma ShowThenSet(v: Value)
    requires Settable(v)
    ensures AfterSet(UNSET, Show(v)) == (v, true)
  {
    var args :| SetAll(UNSET, args) == (v, true);
    SetAllKeepsItemsClean(args);
    if v.items == [] {
      assert Show(v) == [KindChar(v.kind)];
    } else {
      ShowItems(v);
    }
  }

  /** What a user writes: "+a,b" adds, "-a,b" deletes and ":a,b" replaces, whatever
      the flag was set to before; the empty list of items keeps the old ones. */
  lemma WrittenForms(v: Value, items: seq<string>)
    requires items != [] && forall item <- items :: item != "" && ',' !in item
    ensures AfterSet(v, "+" + Join(items, ',')) == (Value(Add, items), true)
    ensures AfterSet(v, "-" + Join(items, ',')) == (Value(Del, items), true)
    ensures AfterSet(v, ":" + Join(items, ',')) == (Value(Replace, items), true)
    ensures AfterSet(v, ":") == (Value(Replace, v.items), true)
  {
    ShowItems(Value(Add, items));
    ShowItems(Value(Del, items));
    ShowItems(Value(Replace, items));
  }

  /** Exactly the arguments with another first character or with an empty item are
      refused, and none of these changes the items. */
  lemma RefusedForms(v: Value, arg: string)
    requires arg != ""
    ensures AfterSet(v, arg).1 <==> arg[0] in "+-:" && (|arg| == 1 || "" !in Split(arg[1..], ','))
    ensures !AfterSet(v, arg).1 ==> AfterSet(v, arg).0.items == v.items
  {
  }

  lemma ShowItems(v: Value)
    requires v.items != [] && ItemsAreClean(v)
    ensures |Show(v)| > 1 && Show(v)[0] == KindChar(v.kind) && Split(Show(v)[1..], ',') == v.items
    ensures "" !in v.items
  {
    assert v.items[0] in v.items && v.items[0] != "";
    assert Show(v)[1..] == Join(v.items, ',');
    JoinIsLonger(v.items);
    SplitJoin(v.items, ',');
  }

  lemma JoinIsLonger(items: seq<string>)
    requires items != []
    ensures |Join(items, ',')| >= |items[0]|
  {
  }

  // Apply.

  function Without(items: seq<string>, drop: set<string>): seq<string>
    decreases |items|
  {
    if items == [] then []
    else
      var last := items[|items| - 1];
      Without(items[..|items| - 1], drop) + if last in drop then [] else [last]
  }

  function Elements(items: seq<string>): set<string> {
    set item <- items
  }

  function Applied(v: Value, target: seq<string>): seq<string> {
    match v.kind
    case Add => target + Without(v.items, Elements(target))
    case Del => Without(target, Elements(v.items))
    case Replace => v.items
  }

  lemma {:induction false} WithoutElements(items: seq<string>, drop: set<string>)
    ensures Elements(Without(items, drop)) == Elements(items) - drop
    decreases |items|
  {
    if items != [] {
      var last := items[|items| - 1];
      WithoutElements(items[..|items| - 1], drop);
      assert items == items[..|items| - 1] + [last];
      assert Elements(items) == Elements(items[..|items| - 1]) + {last};
      var kept := Without(items[..|items| - 1], drop);
      assert Elements(kept + [last]) == Elements(kept) + {last};
      assert kept + [] == kept;
    }
  }

  lemma {:induction false} WithoutAll(items: seq<string>, drop: set<string>)
    ensures Elements(items) <= drop ==> Without(items, drop) == []
    ensures Elements(items) !! drop ==> Without(items, drop) == items
    decreases |items|
  {
    if items != [] {
      WithoutAll(items[..|items| - 1], drop);
      assert items == items[..|items| - 1] + [items[|items| - 1]];
      assert Elements(items) == Elements(items[..|items| - 1]) + {items[|items| - 1]};
    }
  }

  lemma {:induction false} WithoutConcat(a: seq<string>, b: seq<string>, drop: set<string>)
    ensures Without(a + b, drop) == Without(a, drop) + Without(b, drop)
    decreases |b|
  {
    if b == [] {
      assert a + b == a;
    } else {
      WithoutConcat(a, b[..|b| - 1], drop);
      assert (a + b)[..|a + b| - 1] == a + b[..|b| - 1];
    }
  }

  /** Which items a list has afterwards. */
  lemma AppliedElements(v: Value, target: seq<string>)
    ensures var after := Elements(Applied(v, target));
            match v.kind
            case Add => after == Elements(target) + Elements(v.items)
            case Del => after == Elements(target) - Elements(v.items)
            case Replace => after == Elements(v.items)
  {
    match v.kind
    case Add =>
      WithoutElements(v.items, Elements(target));
      assert Elements(Applied(v, target)) == Elements(target) + Elements(Without(v.items, Elements(target)));
    case Del => WithoutElements(target, Elements(v.items));
    case Replace =>
  }

  /** Applying a flag twice is applying it once. */
  lemma ApplyTwice(v: Value, target: seq<string>)
    ensures Applied(v, Applied(v, target)) == Applied(v, target)
  {
    AppliedElements(v, target);
    match v.kind
    case Add => WithoutAll(v.items, Elements(Applied(v, target)));
    case Del => WithoutAll(Applied(v, target), Elements(v.items));
    case Replace =>
  }

  /** Deleting what was added gives the old list back, in its old order. */
  lemma DeleteUndoesAdd(items: seq<string>, target: seq<string>)
    requires Elements(items) !! Elements(target)
    ensures Applied(Value(Del, items), Applied(Value(Add, items), target)) == target
  {
    WithoutAll(items, Elements(target));
    WithoutConcat(target, items, Elements(items));
    WithoutAll(target, Elements(items));
    WithoutAll(items, Elements(items));
  }

  /** New items come last, in the order they are given; a replacement is the items
      as given. */
  lemma AppliedOrder(items: seq<string>, target: seq<string>)
    ensures target <= Applied(Value(Add, items), target)
    ensures Elements(items) !! Elements(target) ==> Applied(Value(Add, items), target) == target + items
    ensures Elements(items) !! Elements(target) ==> Applied(Value(Del, items), target) == target
    ensures Applied(Value(Replace, items), target) == items
  {
    WithoutAll(items, Elements(target));
    WithoutAll(target, Elements(items));
  }

  class ArrayTransformValue {
    var kind: Kind
    var items: seq<string>

    constructor ()
      ensures View() == UNSET
    {
      kind, items := Add, [];
    }

    function View(): Value
      reads this
    {
      Value(kind, items)
    }

    method Set(arg: string) returns (ok: bool)
      modifies this
      ensures (View(), ok) == AfterSet(old(View()), arg)
    {
      if |arg| == 0 { return true; }
      var found := CharKind(arg[0]);
      if found.None? { return false; }
      kind := found.value;
      if |arg| == 1 { return true; }

      var parts := Split(arg[1..], ',');
      for i := 0 to |parts|
        invariant "" !in parts[..i]
      {
        if |parts[i]| == 0 { return false; }
        assert parts[..i + 1] == parts[..i] + [parts[i]];
      }
      assert parts[..|parts|] == parts;
      items := parts;
      return true;
    }

    method Apply(target: seq<string>) returns (result: seq<string>)
      ensures result == Applied(View(), target)
    {
      match kind
      case Add =>
        var present := Elements(target);
        result := target;
        for i := 0 to |items|
          invariant result == target + Without(items[..i], present)
        {
          assert items[..i + 1][..i] == items[..i];
          if items[i] !in present { result := result + [items[i]]; }
        }
        assert items[..|items|] == items;
      case Del =>
        var given := Elements(items);
        result := [];
        for i := 0 to |target|
          invariant result == Without(target[..i], given)
        {
          assert target[..i + 1][..i] == target[..i];
          if target[i] !in given { result := result + [target[i]]; }
        }
        assert target[..|target|] == target;
      case Replace =>
        result := items;
    }
  }
}
