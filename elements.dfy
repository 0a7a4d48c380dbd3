/**
 * The element table behind the periodic-table window: element symbol to display name,
 * atomic mass and two lists of (formula, molar mass) compounds, oxides and nitrates.
 * Users add nitrates, which are saved to a custom-compound file and merged back into the
 * built-in table at start-up. The file is modelled by the ghost field `saved`, the data it
 * holds after the last save (or the data loaded at start-up).
 */
module Elements {
  import opened Wrappers
  import Text

  datatype Compound = Compound(formula: string, mass: real)

  /**
   * One element. The built-in table leaves `oxides` and `nitrates` out for most elements
   * (a missing key is `None`, which is not the same as an empty list).
   */
  datatype Element = Element(name: string, mass: real, oxides: Option<seq<Compound>>, nitrates: Option<seq<Compound>>)

  type Table = map<string, Element>

  /**
   * The decoded custom-compound file: symbol to the `nitrates` list of its object, `None`
   * when that object has no `nitrates` key.
   */
  type Overrides = map<string, Option<seq<Compound>>>

  /** The element's nitrates; a missing list reads as empty. */
  function NitratesOf(e: Element): seq<Compound> {
    e.nitrates.GetOr([])
  }

  /** The formulas that occur in a compound list: `existing_nitrates` of the merge. */
  function FormulaSet(cs: seq<Compound>): set<string> {
    set i | 0 <= i < |cs| :: cs[i].formula
  }

  /** A formula is in the set exactly when some compound of the list has it. */
  lemma FormulaSetMembers(cs: seq<Compound>, f: string)
    ensures f in FormulaSet(cs) <==> exists i :: 0 <= i < |cs| && cs[i].formula == f
  {
  }

  /** Appending a compound adds its formula to the set and nothing else. */
  lemma FormulaSetAppend(cs: seq<Compound>, c: Compound)
    ensures FormulaSet(cs + [c]) == FormulaSet(cs) + {c.formula}
  {
    var ds := cs + [c];
    assert forall i :: 0 <= i < |cs| ==> ds[i] == cs[i];
    assert ds[|cs|] == c;
  }

  /** A few entries of the built-in table, as written there. */
  function Seed(): (t: Table)
    ensures forall k :: k in t ==> t[k].mass > 0.0
    ensures "He" in t && t["He"].oxides.None? && t["He"].nitrates.None?
  {
    map[
      "H" := Element("氢", 1.008,
        Some([Compound("H₂O", 18.015), Compound("H₂O₂", 34.015)]),
        Some([Compound("HNO₃", 63.013), Compound("HNO₃·H₂O", 81.028)])),
      "He" := Element("氦", 4.003, None, None),
      "C" := Element("碳", 12.011,
        Some([Compound("CO", 28.010), Compound("CO₂", 44.010), Compound("C₂O₃", 72.021)]),
        Some([])),
      "Fe" := Element("铁", 55.845,
        Some([Compound("Fe₂O₃", 159.688), Compound("Fe₃O₄", 231.533), Compound("FeO", 71.844), Compound("Fe₂O", 127.689)]),
        Some([Compound("Fe(NO₃)₃", 241.860), Compound("Fe(NO₃)₂", 179.855), Compound("Fe(NO₃)₃·9H₂O", 404.000)])),
      "Ni" := Element("镍", 58.693,
        Some([Compound("NiO", 74.692), Compound("Ni₂O₃", 165.385), Compound("Ni₃O₄", 240.078)]),
        Some([Compound("Ni(NO₃)₂", 182.703), Compound("Ni(NO₃)₂·6H₂O", 290.795), Compound("Ni(NO₃)₃", 244.707)])),
      "Cu" := Element("铜", 63.546,
        Some([Compound("CuO", 79.545), Compound("Cu₂O", 143.091), Compound("CuO₂", 95.545)]),
        Some([Compound("Cu(NO₃)₂", 187.556), Compound("Cu(NO₃)₂·3H₂O", 241.602), Compound("Cu(NO₃)₂·6H₂O", 295.647)]))
    ]
  }

  /** The entry created for a symbol the table does not know. */
  function Placeholder(symbol: string): (e: Element)
    ensures e.name == symbol && e.mass == 0.0
    ensures e.oxides == Some([]) && e.nitrates == Some([])
  {
    Element(symbol, 0.0, Some([]), Some([]))
  }

  /** `get_element_info`: the entry stored under the normalised symbol, if any. */
  function Lookup(t: Table, symbol: string): (r: Option<Element>)
    ensures r.Some? <==> Text.Normalize(symbol) in t
    ensures r.Some? ==> r.value == t[Text.Normalize(symbol)]
  {
    var key := Text.Normalize(symbol);
    if key in t then Some(t[key]) else None
  }

  /** The table a successful add produces, element by element. */
  lemma AddNitrateAppends(t: Table, symbol: string, formula: string, mass: real)
    requires var key := Text.Normalize(symbol);
      key !in t || formula !in FormulaSet(NitratesOf(t[key]))
    ensures var key := Text.Normalize(symbol);
      var e := if key in t then t[key] else Placeholder(key);
      AddNitrate(t, symbol, formula, mass) == (t[key := e.(nitrates := Some(NitratesOf(e) + [Compound(formula, mass)]))], true)
  {
  }

  /** The duplicate check of `add_custom_nitrate`: a scan of the list for the formula. */
  method ContainsFormula(list: seq<Compound>, formula: string) returns (found: bool)
    ensures found <==> formula in FormulaSet(list)
  {
    var i := 0;
    while i < |list|
      invariant 0 <= i <= |list|
      invariant forall j :: 0 <= j < i ==> list[j].formula != formula
    {
      if list[i].formula == formula {
        return true;
      }
      i := i + 1;
    }
    return false;
  }

  /**
   * `add_custom_nitrate`: under the normalised symbol (a placeholder entry when it is
   * unknown), append the compound unless its formula is already among the nitrates.
   * Returns the new table and whether the compound was added.
   */
  function AddNitrate(t: Table, symbol: string, formula: string, mass: real): (res: (Table, bool))
    ensures var key := Text.Normalize(symbol);
      && (!res.1 <==> key in t && formula in FormulaSet(NitratesOf(t[key])))
      && (!res.1 ==> res.0 == t)
      && (res.1 ==>
           && res.0.Keys == t.Keys + {key}
           && NitratesOf(res.0[key]) == (if key in t then NitratesOf(t[key]) else []) + [Compound(formula, mass)]
           && res.0[key].nitrates.Some?
           && (key in t ==> res.0[key] == t[key].(nitrates := res.0[key].nitrates))
           && (key !in t ==> res.0[key] == Element(key, 0.0, Some([]), Some([Compound(formula, mass)])))
           && forall k :: k in t && k != key ==> res.0[k] == t[k])
  {
    var key := Text.Normalize(symbol);
    var e := if key in t then t[key] else Placeholder(key);
    var existing := NitratesOf(e);
    if formula in FormulaSet(existing) then (t, false)
    else
      var appended := existing + [Compound(formula, mass)];
      assert key !in t ==> appended == [Compound(formula, mass)];
      (t[key := e.(nitrates := Some(appended))], true)
  }

  /**
   * After a successful add the compound can be looked up under any spelling of the symbol
   * that normalises to the same key, including a symbol the table did not know before.
   */
  lemma AddThenLookup(t: Table, symbol: string, formula: string, mass: real, query: string)
    requires AddNitrate(t, symbol, formula, mass).1
    requires Text.Normalize(query) == Text.Normalize(symbol)
    ensures var r := Lookup(AddNitrate(t, symbol, formula, mass).0, query);
      && r.Some?
      && formula in FormulaSet(NitratesOf(r.value))
      && (Text.Normalize(symbol) !in t ==> r.value.name == Text.Normalize(symbol) && r.value.mass == 0.0)
  {
    var t' := AddNitrate(t, symbol, formula, mass).0;
    var cs := NitratesOf(t'[Text.Normalize(symbol)]);
    assert cs[|cs| - 1].formula == formula;
  }

  /** Adding the same compound twice: the second call is refused and changes nothing. */
  lemma AddTwiceRefused(t: Table, symbol: string, formula: string, mass: real, mass2: real)
    ensures var t1 := AddNitrate(t, symbol, formula, mass).0;
      AddNitrate(t1, symbol, formula, mass2) == (t1, false)
  {
    var t1 := AddNitrate(t, symbol, formula, mass).0;
    var cs := NitratesOf(t1[Text.Normalize(symbol)]);
    if AddNitrate(t, symbol, formula, mass).1 {
      assert cs[|cs| - 1].formula == formula;
    }
  }

  /**
   * The compounds of `cs`, in order, whose formula is not in `seen`: what the start-up
   * merge appends (`seen` is computed once, before the loop, and never grows).
   */
  function Unseen(cs: seq<Compound>, seen: set<string>): (r: seq<Compound>)
    ensures |r| <= |cs|
    ensures forall i :: 0 <= i < |r| ==> r[i].formula !in seen
  {
    if cs == [] then []
    else
      var last := cs[|cs| - 1];
      Unseen(cs[..|cs| - 1], seen) + (if last.formula in seen then [] else [last])
  }

  lemma {:induction false} UnseenAppend(a: seq<Compound>, b: seq<Compound>, seen: set<string>)
    ensures Unseen(a + b, seen) == Unseen(a, seen) + Unseen(b, seen)
    decreases |b|
  {
    if b == [] {
      assert a + b == a;
    } else {
      var b', x := b[..|b| - 1], b[|b| - 1];
      var ab := a + b;
      var keep := if x.formula in seen then [] else [x];
      UnseenAppend(a, b', seen);
      assert ab[..|ab| - 1] == a + b' && ab[|ab| - 1] == x;
      assert Unseen(ab, seen) == Unseen(a + b', seen) + keep;
      assert Unseen(b, seen) == Unseen(b', seen) + keep;
    }
  }

  /** Every compound `Unseen` keeps comes from its input. */
  lemma {:induction false} UnseenSound(cs: seq<Compound>, seen: set<string>, c: Compound)
    requires c in Unseen(cs, seen)
    ensures c in cs && c.formula !in seen
    decreases |cs|
  {
    var init := cs[..|cs| - 1];
    if c != cs[|cs| - 1] {
      UnseenSound(init, seen, c);
      assert c in init;
    }
  }

  /** Every compound of `cs` whose formula is outside `seen` is kept. */
  lemma {:induction false} UnseenComplete(cs: seq<Compound>, seen: set<string>, c: Compound)
    requires c in cs && c.formula !in seen
    ensures c in Unseen(cs, seen)
    decreases |cs|
  {
    var last := cs[|cs| - 1];
    if c != last {
      assert cs == cs[..|cs| - 1] + [last];
      UnseenComplete(cs[..|cs| - 1], seen, c);
    }
  }

  /** Nothing is dropped when no formula is in `seen`. */
  lemma {:induction false} UnseenKeepsAll(cs: seq<Compound>, seen: set<string>)
    requires forall i :: 0 <= i < |cs| ==> cs[i].formula !in seen
    ensures Unseen(cs, seen) == cs
    decreases |cs|
  {
    if cs != [] {
      var init := cs[..|cs| - 1];
      UnseenKeepsAll(init, seen);
      assert cs == init + [cs[|cs| - 1]];
    }
  }

  /** Everything is dropped when every formula is in `seen`. */
  lemma {:induction false} UnseenDropsAll(cs: seq<Compound>, seen: set<string>)
    requires forall i :: 0 <= i < |cs| ==> cs[i].formula in seen
    ensures Unseen(cs, seen) == []
    decreases |cs|
  {
    if cs != [] {
      UnseenDropsAll(cs[..|cs| - 1], seen);
    }
  }

  /** The merge of one element with the `nitrates` list the file holds for it. */
  function MergeEntry(e: Element, incoming: seq<Compound>): (r: Element)
    ensures r.name == e.name && r.mass == e.mass && r.oxides == e.oxides && r.nitrates.Some?
    ensures NitratesOf(e) <= NitratesOf(r)
  {
    var existing := NitratesOf(e);
    e.(nitrates := Some(existing + Unseen(incoming, FormulaSet(existing))))
  }

  /**
   * The start-up merge in `load_custom_compounds`: symbols the table does not know are
   * ignored; a known symbol whose file object has a `nitrates` list gets the unseen ones.
   */
  function Merge(t: Table, custom: Overrides): (r: Table)
    ensures r.Keys == t.Keys
    ensures forall k :: k in t && (k !in custom || custom[k].None?) ==> r[k] == t[k]
    ensures forall k :: k in t && k in custom && custom[k].Some? ==> r[k] == MergeEntry(t[k], custom[k].value)
  {
    map k | k in t :: if k in custom && custom[k].Some? then MergeEntry(t[k], custom[k].value) else t[k]
  }

  /**
   * What the merge does to one known element: name, mass and oxides are kept, the old
   * nitrates stay in front, and what follows is exactly the incoming compounds whose
   * formula was not among them before the merge, so two incoming compounds with the same
   * new formula are both appended.
   */
  lemma MergeEntryAppends(e: Element, incoming: seq<Compound>)
    ensures var m := MergeEntry(e, incoming);
      var before := NitratesOf(e);
      var added := NitratesOf(m)[|before|..];
      && m.name == e.name && m.mass == e.mass && m.oxides == e.oxides
      && NitratesOf(e) <= NitratesOf(m)
      && (forall i :: 0 <= i < |added| ==> added[i] in incoming && added[i].formula !in FormulaSet(before))
      && (forall c :: c in incoming && c.formula !in FormulaSet(before) ==> c in added)
  {
    var before := NitratesOf(e);
    var u := Unseen(incoming, FormulaSet(before));
    assert NitratesOf(MergeEntry(e, incoming))[|before|..] == u;
    forall c | c in incoming && c.formula !in FormulaSet(before) ensures c in u {
      UnseenComplete(incoming, FormulaSet(before), c);
    }
    forall i | 0 <= i < |u| ensures u[i] in incoming {
      UnseenSound(incoming, FormulaSet(before), u[i]);
    }
  }

  /**
   * The inner loop of the merge: each incoming compound whose formula is not among the
   * formulas of `existing`, as they were before the loop, is appended in order.
   */
  method AppendUnseen(existing: seq<Compound>, incoming: seq<Compound>) returns (list: seq<Compound>)
    ensures list == existing + Unseen(incoming, FormulaSet(existing))
  {
    var seen := FormulaSet(existing);
    list := existing;
    var j := 0;
    while j < |incoming|
      invariant 0 <= j <= |incoming|
      invariant list == existing + Unseen(incoming[..j], seen)
    {
      assert incoming[..j + 1][..j] == incoming[..j];
      if incoming[j].formula !in seen {
        list := list + [incoming[j]];
      }
      j := j + 1;
    }
    assert incoming[..j] == incoming;
  }

  /**
   * A file that lists the same new formula twice, with any masses, makes the merge append
   * both entries.
   */
  lemma MergeKeepsFileDuplicates(e: Element, a: Compound, b: Compound)
    requires a.formula == b.formula && a.formula !in FormulaSet(NitratesOf(e))
    ensures NitratesOf(MergeEntry(e, [a, b])) == NitratesOf(e) + [a, b]
  {
    UnseenKeepsAll([a, b], FormulaSet(NitratesOf(e)));
  }

  /**
   * The projection `save_custom_compounds` writes: every element whose `nitrates` list is
   * present and not empty, with that list unchanged.
   */
  function Projection(t: Table): (p: Overrides)
    ensures forall k :: k in p <==> k in t && NitratesOf(t[k]) != []
    ensures forall k :: k in p ==> p[k] == t[k].nitrates
  {
    map k | k in t && NitratesOf(t[k]) != [] :: t[k].nitrates
  }

  /**
   * `cur` differs from `base` only by compounds appended after the base nitrates whose
   * formulas the base list does not contain (presence of a list aside, when nothing was
   * appended). This is what adds and the start-up merge produce for known symbols.
   */
  predicate ExtendsEntry(b: Element, c: Element) {
    && c.name == b.name && c.mass == b.mass && c.oxides == b.oxides
    && (|| c.nitrates == b.nitrates
        || (&& c.nitrates.Some?
            && |NitratesOf(b)| < |NitratesOf(c)|
            && NitratesOf(b) <= NitratesOf(c)
            && forall i :: |NitratesOf(b)| <= i < |NitratesOf(c)| ==> NitratesOf(c)[i].formula !in FormulaSet(NitratesOf(b))))
  }

  predicate Extends(base: Table, cur: Table) {
    cur.Keys == base.Keys && forall k :: k in base ==> ExtendsEntry(base[k], cur[k])
  }

  /**
   * One element: merging the saved non-empty list of an extension back into its base
   * element gives the extension.
   */
  lemma ReloadEntry(b: Element, c: Element)
    requires ExtendsEntry(b, c) && NitratesOf(c) != []
    ensures MergeEntry(b, c.nitrates.value) == c
  {
    var bl := NitratesOf(b);
    var cl := NitratesOf(c);
    var tail := cl[|bl|..];
    assert cl == bl + tail;
    UnseenAppend(bl, tail, FormulaSet(bl));
    UnseenDropsAll(bl, FormulaSet(bl));
    if c.nitrates == b.nitrates {
      UnseenDropsAll(tail, FormulaSet(bl));
    } else {
      UnseenKeepsAll(tail, FormulaSet(bl));
    }
    assert Unseen(cl, FormulaSet(bl)) == tail;
  }

  /**
   * Saving and merging the saved data into the same base table gives back the current
   * table, whenever the current table only extends the base.
   */
  lemma ReloadRestores(base: Table, cur: Table)
    requires Extends(base, cur)
    ensures Merge(base, Projection(cur)) == cur
  {
    var p := Projection(cur);
    var r := Merge(base, p);
    forall k | k in base ensures r[k] == cur[k] {
      if k in p {
        ReloadEntry(base[k], cur[k]);
      } else {
        assert NitratesOf(cur[k]) == [];
      }
    }
  }

  /** A successful or refused add of a known symbol keeps a table an extension of its base. */
  lemma AddKeepsExtension(base: Table, cur: Table, symbol: string, formula: string, mass: real)
    requires Extends(base, cur)
    requires Text.Normalize(symbol) in base
    ensures Extends(base, AddNitrate(cur, symbol, formula, mass).0)
  {
    var key := Text.Normalize(symbol);
    var res := AddNitrate(cur, symbol, formula, mass);
    if res.1 {
      var bl := NitratesOf(base[key]);
      var ol := NitratesOf(cur[key]);
      var nl := NitratesOf(res.0[key]);
      assert bl <= ol;
      assert nl == ol + [Compound(formula, mass)];
      assert formula !in FormulaSet(bl);
      forall i | |bl| <= i < |nl| ensures nl[i].formula !in FormulaSet(bl) {
        if i < |ol| {
          assert nl[i] == ol[i];
        }
      }
      assert ExtendsEntry(base[key], res.0[key]);
    }
  }

  /**
   * The start-up merge extends its base, unless the file gives an empty list to an element
   * that has none (the list then becomes present but stays empty).
   */
  lemma MergeExtends(base: Table, custom: Overrides)
    requires forall k :: k in custom && k in base && base[k].nitrates.None? ==> custom[k] != Some([])
    ensures Extends(base, Merge(base, custom))
  {
    var r := Merge(base, custom);
    forall k | k in base ensures ExtendsEntry(base[k], r[k]) {
      if k in custom && custom[k].Some? {
        var bl := NitratesOf(base[k]);
        var u := Unseen(custom[k].value, FormulaSet(bl));
        assert NitratesOf(r[k]) == bl + u;
        if u == [] {
          assert bl + u == bl;
        } else {
          var nl := bl + u;
          forall i | |bl| <= i < |nl| ensures nl[i].formula !in FormulaSet(bl) {
            assert nl[i] == u[i - |bl|];
          }
        }
      }
    }
  }

  /**
   * A compound added under a symbol the table did not know is saved, but the next start-up
   * merge ignores that symbol, so the compound is not restored.
   */
  lemma PlaceholderNotRestored(t: Table, symbol: string, formula: string, mass: real)
    requires Text.Normalize(symbol) !in t
    ensures var t1 := AddNitrate(t, symbol, formula, mass).0;
      && Text.Normalize(symbol) in Projection(t1)
      && Text.Normalize(symbol) !in Merge(t, Projection(t1))
  {
  }

  class ElementInfo {
    /** The table, built-in entries plus everything merged and added since. */
    var elements: Table
    /**
     * What the custom-compound file holds. Before the first save, when the file was missing
     * or did not decode, this is `map[]` while the real file holds nothing or bytes that do
     * not decode to a map.
     */
    ghost var saved: Overrides

    /** The built-in table merged with the custom-compound file, when it decodes. */
    constructor (stored: Option<Overrides>)
      ensures elements == if stored.Some? then Merge(Seed(), stored.value) else Seed()
      ensures saved == stored.GetOr(map[])
    {
      elements := Seed();
      saved := stored.GetOr(map[]);
      new;
      LoadCustomCompounds(stored);
    }

    /**
     * `load_custom_compounds`: `custom` is the decoded file, `None` when it is missing or
     * does not decode, in which case nothing changes.
     */
    method LoadCustomCompounds(custom: Option<Overrides>)
      modifies this
      ensures elements == if custom.Some? then Merge(old(elements), custom.value) else old(elements)
      ensures saved == old(saved)
    {
      if custom.None? {
        return;
      }
      var data := custom.value;
      var pending := data.Keys;
      while pending != {}
        invariant pending <= data.Keys
        invariant elements.Keys == old(elements).Keys
        invariant saved == old(saved)
        invariant forall k :: k in elements ==>
          elements[k] == if k in data && k !in pending && data[k].Some? then MergeEntry(old(elements)[k], data[k].value) else old(elements)[k]
        decreases pending
      {
        var symbol :| symbol in pending;
        pending := pending - {symbol};
        if symbol in elements && data[symbol].Some? {
          var e := elements[symbol];
          var list := AppendUnseen(NitratesOf(e), data[symbol].value);
          elements := elements[symbol := e.(nitrates := Some(list))];
        }
      }
    }

    /** `save_custom_compounds`: writes the projection of the table. */
    method SaveCustomCompounds()
      modifies this
      ensures elements == old(elements)
      ensures saved == Projection(elements)
    {
      saved := Projection(elements);
    }

    /**
     * The first steps of `add_custom_nitrate`: an unknown symbol gets a placeholder
     * element, and an element without a `nitrates` list gets an empty one. Returns that
     * list.
     */
    method PrepareEntry(key: string) returns (list: seq<Compound>)
      modifies this
      ensures var e := if key in old(elements) then old(elements)[key] else Placeholder(key);
        list == NitratesOf(e) && elements == old(elements)[key := e.(nitrates := Some(list))]
      ensures saved == old(saved)
    {
      if key !in elements {
        elements := elements[key := Placeholder(key)];
      }
      if elements[key].nitrates.None? {
        elements := elements[key := elements[key].(nitrates := Some([]))];
      }
      list := elements[key].nitrates.value;
    }

    /**
     * `add_custom_nitrate`: refuses a formula the element already lists, otherwise appends
     * the compound and saves the custom compounds; the table is saved after, and only
     * after, a successful add.
     */
    method AddCustomNitrate(symbol: string, formula: string, mass: real) returns (added: bool)
      modifies this
      ensures (elements, added) == AddNitrate(old(elements), symbol, formula, mass)
      ensures added ==> saved == Projection(elements)
      ensures !added ==> saved == old(saved)
    {
      var key := Text.Normalize(symbol);
      var list := PrepareEntry(key);
      ghost var e := if key in old(elements) then old(elements)[key] else Placeholder(key);
      var duplicate := ContainsFormula(list, formula);
      if duplicate {
        assert key in old(elements) && old(elements)[key].nitrates == Some(list);
        assert elements == old(elements);
        return false;
      }
      AddNitrateAppends(old(elements), symbol, formula, mass);
      elements := elements[key := elements[key].(nitrates := Some(list + [Compound(formula, mass)]))];
      assert elements == old(elements)[key := e.(nitrates := Some(list + [Compound(formula, mass)]))];
      SaveCustomCompounds();
      added := true;
    }

    /** `get_element_info`. */
    function GetElementInfo(symbol: string): (r: Option<Element>)
      reads this
      ensures r.Some? <==> Text.Normalize(symbol) in elements
      ensures r.Some? ==> r.value == elements[Text.Normalize(symbol)]
    {
      Lookup(elements, symbol)
    }
  }
}
