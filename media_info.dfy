/** The two comma-separated list inputs of the game form's media section
    (MediaInfo.tsx): `images` and `tags` are shown as their items joined with
    `", "`, and whatever is typed is turned back into a list by splitting on commas,
    trimming each piece and dropping the empty ones. */
module MediaInfo {
  import opened Wrappers
  import opened JsString
  import opened JsonCodec
  import GameActions

  /** What the form holds for the field: the list the last edit produced, or the text
      it was initialised with. */
  datatype FieldValue = ListValue(items: seq<string>) | TextValue(text: string)

  /** `Array.isArray(value) ? value.join(', ') : value`. */
  function Shown(v: FieldValue): (s: string)
    ensures v.TextValue? ==> s == v.text
    ensures v.ListValue? ==> s == Join(v.items, ", ")
    ensures v.ListValue? && v.items == [] ==> s == ""
    ensures v.ListValue? && |v.items| == 1 ==> s == v.items[0]
  {
    match v
    case ListValue(items) => Join(items, ", ")
    case TextValue(text) => text
  }

  /** The list an edit of the input produces. */
  function Typed(text: string): (v: FieldValue)
    ensures v.ListValue?
    ensures forall x :: x in v.items ==> x != [] && IsTrimmed(x) && ',' !in x
  {
    ListValue(CommaList(text))
  }

  /** Items that survive being shown and typed back. */
  predicate PlainItem(x: string) {
    x != [] && IsTrimmed(x) && ',' !in x
  }

  /** The pieces between the commas of a list joined with `", "`. */
  function Padded(items: seq<string>): (r: seq<string>)
    requires |items| >= 1
    ensures |r| == |items| && r[0] == items[0]
    ensures forall i :: 1 <= i < |r| ==> r[i] == " " + items[i]
  {
    [items[0]] + seq(|items| - 1, i requires 0 <= i < |items| - 1 => " " + items[i + 1])
  }

  lemma PadFirst(a: string, rest: seq<string>)
    ensures " " + Join([a] + rest, ",") == Join([" " + a] + rest, ",")
  {
    if rest != [] {
      assert ([a] + rest)[1..] == rest;
      assert ([" " + a] + rest)[1..] == rest;
    }
  }

  /** Joining with `", "` is joining the padded pieces with `","`. */
  lemma {:induction false} JoinPadded(items: seq<string>)
    requires |items| >= 1
    ensures Join(items, ", ") == Join(Padded(items), ",")
  {
    if |items| >= 2 {
      var tail := items[1..];
      JoinPadded(tail);
      var p := Padded(tail);
      PadFirst(p[0], p[1..]);
      assert [p[0]] + p[1..] == p;
      assert [" " + p[0]] + p[1..] == Padded(items)[1..];
    }
  }

  lemma TrimPlain(x: string)
    requires x != [] && IsTrimmed(x)
    ensures Trim(x) == x
  {
  }

  lemma TrimPadded(x: string)
    requires x != [] && IsTrimmed(x)
    ensures Trim(" " + x) == x
  {
    assert (" " + x)[1..] == x;
  }

  lemma {:induction false} DropEmptyOfNonEmpty(parts: seq<string>)
    requires forall i :: 0 <= i < |parts| ==> parts[i] != []
    ensures DropEmpty(parts) == parts
  {
    if parts != [] {
      DropEmptyOfNonEmpty(parts[1..]);
    }
  }

  lemma EmptyListShown()
    ensures CommaList("") == []
  {
    assert Split("", ',') == [""];
    assert Trim("") == "";
  }

  /** Trimming the padded pieces gives the items back. */
  lemma TrimPieces(items: seq<string>)
    requires |items| >= 1
    requires forall i :: 0 <= i < |items| ==> PlainItem(items[i])
    ensures TrimEach(Padded(items)) == items
  {
    var p := Padded(items);
    var pieces := TrimEach(p);
    forall i | 0 <= i < |pieces| ensures pieces[i] == items[i] {
      if i == 0 { TrimPlain(items[0]); } else { TrimPadded(items[i]); }
    }
  }

  lemma SplitPadded(items: seq<string>)
    requires |items| >= 1
    requires forall i :: 0 <= i < |items| ==> PlainItem(items[i])
    ensures Split(Join(items, ", "), ',') == Padded(items)
  {
    JoinPadded(items);
    var p := Padded(items);
    forall i | 0 <= i < |p| ensures ',' !in p[i] {
      if i > 0 { assert p[i] == " " + items[i]; }
    }
    SplitJoin(p, ',');
  }

  /** A list of plain items, shown and typed back unchanged, gives the same list. */
  lemma ShowThenType(items: seq<string>)
    requires forall i :: 0 <= i < |items| ==> PlainItem(items[i])
    ensures Typed(Shown(ListValue(items))) == ListValue(items)
  {
    if items == [] {
      EmptyListShown();
    } else {
      SplitPadded(items);
      TrimPieces(items);
      DropEmptyOfNonEmpty(items);
    }
  }

  /** Showing what was typed and typing it again changes nothing. */
  lemma TypeIsStable(text: string)
    ensures Typed(Shown(Typed(text))) == Typed(text)
  {
    var items := CommaList(text);
    assert forall i :: 0 <= i < |items| ==> PlainItem(items[i]) by {
      forall i | 0 <= i < |items| ensures PlainItem(items[i]) {
        assert items[i] in items;
      }
    }
    ShowThenType(items);
  }

  /** On text that is not JSON, the server's fallback reads the same list the input
      produces. */
  lemma ClientAgreesWithServer(text: string)
    requires text != "" && Parse(text).None?
    ensures GameActions.ParseArrayInput(Some(text)) == Typed(text).items
  {
  }

  /** Two plain items joined as the input shows them type back as those two items. */
  lemma TwoItems(a: string, b: string)
    requires PlainItem(a) && PlainItem(b)
    ensures Typed(a + ", " + b).items == [a, b]
  {
    var items := [a, b];
    assert Join(items, ", ") == a + ", " + b;
    ShowThenType(items);
  }

  /** The two URLs of the images input's placeholder, which shows them joined with `", "`. */
  const PlaceholderImage1 := "https://example.com/1.jpg"
  const PlaceholderImage2 := "https://example.com/2.jpg"

  /** The images placeholder types as its two URLs. */
  lemma TwoImages()
    ensures Typed(PlaceholderImage1 + ", " + PlaceholderImage2).items == [PlaceholderImage1, PlaceholderImage2]
  {
    assert ',' !in PlaceholderImage1 && ',' !in PlaceholderImage2;
    TwoItems(PlaceholderImage1, PlaceholderImage2);
  }
}
