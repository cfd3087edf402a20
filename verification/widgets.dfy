/** The widget registry: a static table from widget kind to its display
    metadata, whether its value is indexed for search, and its default value,
    plus the list of entries the UI pickers consume. */
module Widgets {
  import opened JsValues

  /** The eight widget kinds, one per key of the table. */
  datatype Kind = Text | Folder | Link | Checkbox | Audio | Counter | Countdown | Todo

  /** One row of the table. An absent `defaultValue` is `Undefined`. */
  datatype Widget = Widget(labelText: string, icon: string, indexValue: bool, defaultValue: Json)

  /** One element of the widget list: the key under `index`, then the row's fields. */
  datatype WidgetEntry = WidgetEntry(index: string, labelText: string, icon: string, indexValue: bool, defaultValue: Json)

  /** The keys of the table in declaration order. */
  const Declared: seq<Kind> := [Text, Folder, Link, Checkbox, Audio, Counter, Countdown, Todo]

  /** The key under which a kind is declared; it is also the stored `type`. */
  function Key(k: Kind): string
  {
    match k
    case Text => "text"
    case Folder => "folder"
    case Link => "link"
    case Checkbox => "checkbox"
    case Audio => "audio"
    case Counter => "counter"
    case Countdown => "countdown"
    case Todo => "todo"
  }

  /** `widgets[k]`. */
  function Lookup(k: Kind): (w: Widget)
    ensures w.indexValue <==> k == Text || k == Link
    ensures w.defaultValue != Undefined <==> k == Checkbox
    ensures k == Checkbox ==> w.defaultValue == Bool(false)
  {
    match k
    case Text => Widget("Text", "fa-solid fa-align-left", true, Undefined)
    case Folder => Widget("Folder", "fa-solid fa-folder", false, Undefined)
    case Link => Widget("Link", "fa-solid fa-link", true, Undefined)
    case Checkbox => Widget("Checkbox", "fa-solid fa-square-check", false, Bool(false))
    case Audio => Widget("Audio", "fa-solid fa-microphone", false, Undefined)
    case Counter => Widget("Counter", "fa-solid fa-plus-minus", false, Undefined)
    case Countdown => Widget("Countdown", "fa-solid fa-hourglass-half", false, Undefined)
    case Todo => Widget("To-do", "fa-solid fa-square-check", false, Undefined)
  }

  /** Keys are pairwise distinct, so looking a kind up by its key is a function. */
  lemma KeyInjective(a: Kind, b: Kind)
    ensures Key(a) == Key(b) <==> a == b
  {
  }

  /** The kind declared under `key`, if any: the inverse of `Key`. */
  function KindOf(key: string): (r: Option<Kind>)
    ensures r.Some? ==> Key(r.value) == key
    ensures r.None? <==> forall k: Kind :: Key(k) != key
  {
    if key == "text" then Some(Text)
    else if key == "folder" then Some(Folder)
    else if key == "link" then Some(Link)
    else if key == "checkbox" then Some(Checkbox)
    else if key == "audio" then Some(Audio)
    else if key == "counter" then Some(Counter)
    else if key == "countdown" then Some(Countdown)
    else if key == "todo" then Some(Todo)
    else None
  }

  /** `{ index: key, ...widgets[key] }`. */
  function Entry(k: Kind): WidgetEntry
  {
    var w := Lookup(k);
    WidgetEntry(Key(k), w.labelText, w.icon, w.indexValue, w.defaultValue)
  }

  /** `getWidgetList()`: one entry per key, in declaration order. */
  function GetWidgetList(): (r: seq<WidgetEntry>)
    ensures |r| == |Declared| == 8
    ensures forall i :: 0 <= i < |r| ==> r[i] == Entry(Declared[i])
  {
    seq(|Declared|, i requires 0 <= i < |Declared| => Entry(Declared[i]))
  }

  /** Each entry is the row of the key it carries: looking its `index` up
      in the table gives back exactly the label, icon, index flag and default
      the entry holds. */
  lemma WidgetListRows(i: int)
    requires 0 <= i < |GetWidgetList()|
    ensures var e := GetWidgetList()[i];
      && KindOf(e.index) == Some(Declared[i])
      && var w := Lookup(Declared[i]);
      && e.labelText == w.labelText && e.icon == w.icon
      && e.indexValue == w.indexValue && e.defaultValue == w.defaultValue
  {
    var k := Declared[i];
    var r := KindOf(Key(k));
    assert !(forall j: Kind :: Key(j) != Key(k));
    KeyInjective(r.value, k);
  }

  /** Read off the list alone: an entry is indexed for search exactly when
      its key is `text` or `link`, and carries a default value exactly when
      its key is `checkbox`, that default being `false`. */
  lemma WidgetListFlags(i: int)
    requires 0 <= i < |GetWidgetList()|
    ensures var e := GetWidgetList()[i];
      && (e.indexValue <==> e.index == "text" || e.index == "link")
      && (e.defaultValue != Undefined <==> e.index == "checkbox")
      && (e.index == "checkbox" ==> e.defaultValue == Bool(false))
  {
    var k := Declared[i];
    KeyInjective(k, Text);
    KeyInjective(k, Link);
    KeyInjective(k, Checkbox);
  }

  /** Where a kind is declared. */
  function Position(k: Kind): (i: nat)
    ensures i < |Declared| && Declared[i] == k
  {
    match k
    case Text => 0 case Folder => 1 case Link => 2 case Checkbox => 3
    case Audio => 4 case Counter => 5 case Countdown => 6 case Todo => 7
  }

  /** Each kind is declared once. */
  lemma DeclaredOnce(i: nat)
    requires i < |Declared|
    ensures Position(Declared[i]) == i
  {
    if i < 4 {
      assert Declared[..4] == [Text, Folder, Link, Checkbox];
      assert Declared[i] == Declared[..4][i];
    } else {
      assert Declared[4..] == [Audio, Counter, Countdown, Todo];
      assert Declared[i] == Declared[4..][i - 4];
    }
  }

  lemma DistinctIndices(i: nat, j: nat)
    requires i < j < |Declared|
    ensures Key(Declared[i]) != Key(Declared[j])
  {
    DeclaredOnce(i);
    DeclaredOnce(j);
    KeyInjective(Declared[i], Declared[j]);
  }

  /** Every kind is listed exactly once, and the list's indices are distinct. */
  lemma WidgetListCoversKinds(k: Kind)
    ensures GetWidgetList()[Position(k)] == Entry(k)
    ensures forall i, j :: 0 <= i < j < |GetWidgetList()| ==> GetWidgetList()[i].index != GetWidgetList()[j].index
  {
    var r := GetWidgetList();
    forall i, j | 0 <= i < j < |r| ensures r[i].index != r[j].index {
      DistinctIndices(i, j);
    }
  }
}
