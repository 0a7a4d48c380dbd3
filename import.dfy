/**
 * The bulk import of the "add compound" dialog: each line of a text file is either
 * skipped or turned into one `add_custom_nitrate` call, and the number of calls that
 * added a compound is reported. Parsing a number, Python's `float()`, is the oracle
 * `parse`, which gives `None` where `float()` raises `ValueError`.
 */
module Import {
  import opened Wrappers
  import Text
  import Elements

  /** The three fields a usable line contributes. */
  datatype ImportLine = ImportLine(symbol: string, formula: string, mass: real)

  /**
   * One line: stripped; blank lines and lines starting with `#` are skipped, so are lines
   * with fewer than three comma-separated fields and lines whose third field is not a
   * number. Fields past the third are ignored; the mass is not checked for sign.
   */
  function ParseLine(raw: string, parse: string -> Option<real>): (r: Option<ImportLine>)
    ensures var line := Text.Strip(raw);
      var parts := Text.Split(line, ',');
      r.None? <==> line == [] || line[0] == '#' || |parts| < 3 || parse(Text.Strip(parts[2])).None?
    ensures r.Some? ==> Text.Strip(r.value.formula) == r.value.formula
  {
    var line := Text.Strip(raw);
    if line == [] || line[0] == '#' then None
    else
      var parts := Text.Split(line, ',');
      if |parts| < 3 then None
      else
        match parse(Text.Strip(parts[2]))
        case None => None
        case Some(mass) =>
          Text.StripIdempotent(parts[1]);
          Some(ImportLine(Text.Normalize(parts[0]), Text.Strip(parts[1]), mass))
  }

  /**
   * A line that strips to three comma-free fields, the first not starting with `#`, whose
   * first and last fields strip like `sym` and `mass`.
   */
  lemma ParseStripped(raw: string, sym: string, formula: string, mass: string, s': string, m': string,
                      parse: string -> Option<real>)
    requires Text.Strip(raw) == s' + [','] + formula + [','] + m'
    requires ',' !in s' && ',' !in formula && ',' !in m'
    requires s' == [] || s'[0] != '#'
    requires Text.Strip(s') == Text.Strip(sym) && Text.Strip(m') == Text.Strip(mass)
    ensures ParseLine(raw, parse) == match parse(Text.Strip(mass))
      case None => None
      case Some(v) => Some(ImportLine(Text.Normalize(sym), Text.Strip(formula), v))
  {
    var line := Text.Strip(raw);
    Text.SplitThree(s', formula, m', ',');
    if s' != [] {
      assert line[0] == s'[0];
    } else {
      assert line[0] == ',';
    }
  }

  /**
   * A line `symbol,formula,mass` of comma-free fields, whose symbol does not start with
   * `#` and whose mass parses, yields the normalised symbol, the stripped formula and the
   * parsed mass, whatever whitespace surrounds the fields.
   */
  lemma ParseFields(sym: string, formula: string, mass: string, v: real, parse: string -> Option<real>)
    requires ',' !in sym && ',' !in formula && ',' !in mass
    requires Text.Strip(sym) == [] || Text.Strip(sym)[0] != '#'
    requires parse(Text.Strip(mass)) == Some(v)
    ensures ParseLine(sym + [','] + formula + [','] + mass, parse)
      == Some(ImportLine(Text.Normalize(sym), Text.Strip(formula), v))
  {
    var s', m' := Text.StripAroundSeps(sym, ',', formula, mass);
    ParseStripped(sym + [','] + formula + [','] + mass, sym, formula, mass, s', m', parse);
  }

  /**
   * The symbol of a parsed line is already normalised, so normalising it again inside
   * `add_custom_nitrate` files the compound under the same key.
   */
  lemma ParsedSymbolNormalised(raw: string, parse: string -> Option<real>)
    requires ParseLine(raw, parse).Some?
    ensures var sym := ParseLine(raw, parse).value.symbol;
      Text.Normalize(sym) == sym
  {
    Text.NormalizeIdempotent(Text.Split(Text.Strip(raw), ',')[0]);
  }

  /** How many of the lines parse. */
  function CountParsed(lines: seq<string>, parse: string -> Option<real>): (n: nat)
    ensures n <= |lines|
  {
    if lines == [] then 0
    else CountParsed(lines[..|lines| - 1], parse) + (if ParseLine(lines[|lines| - 1], parse).Some? then 1 else 0)
  }

  /**
   * One iteration of the import loop on the running table and count: a parsed line goes
   * to `AddNitrate`, and the count goes up when that call adds. The count rises by at
   * most one, and the table changes only when it rises.
   */
  function ImportOne(prev: (Elements.Table, nat), raw: string, parse: string -> Option<real>): (r: (Elements.Table, nat))
    ensures prev.1 <= r.1 <= prev.1 + 1
    ensures r.1 == prev.1 ==> r.0 == prev.0
  {
    match ParseLine(raw, parse)
    case None => prev
    case Some(l) =>
      var res := Elements.AddNitrate(prev.0, l.symbol, l.formula, l.mass);
      (res.0, prev.1 + if res.1 then 1 else 0)
  }

  /** The table and the count after the import loop has handled `lines` in order. */
  function ImportAll(t: Elements.Table, lines: seq<string>, parse: string -> Option<real>): (r: (Elements.Table, nat))
    ensures r.1 <= CountParsed(lines, parse)
    decreases |lines|
  {
    if lines == [] then (t, 0)
    else
      var prev := ImportAll(t, lines[..|lines| - 1], parse);
      ImportOneCounts(prev, lines[|lines| - 1], parse);
      ImportOne(prev, lines[|lines| - 1], parse)
  }

  /** An unparsed line changes nothing; a parsed one counts at most once. */
  lemma ImportOneCounts(prev: (Elements.Table, nat), raw: string, parse: string -> Option<real>)
    ensures ParseLine(raw, parse).None? ==> ImportOne(prev, raw, parse) == prev
    ensures ImportOne(prev, raw, parse).1 <= prev.1 + (if ParseLine(raw, parse).Some? then 1 else 0)
  {
  }

  /** A parsed line goes to `AddNitrate`, and the count goes up when that call adds. */
  lemma ImportOneParsed(prev: (Elements.Table, nat), raw: string, parse: string -> Option<real>, l: ImportLine)
    requires ParseLine(raw, parse) == Some(l)
    ensures var res := Elements.AddNitrate(prev.0, l.symbol, l.formula, l.mass);
      ImportOne(prev, raw, parse) == (res.0, prev.1 + if res.1 then 1 else 0)
  {
  }

  /** One more line: the import of `lines[..i + 1]` continues the import of `lines[..i]`. */
  lemma ImportAllStep(t: Elements.Table, lines: seq<string>, i: nat, parse: string -> Option<real>)
    requires i < |lines|
    ensures ImportAll(t, lines[..i + 1], parse) == ImportOne(ImportAll(t, lines[..i], parse), lines[i], parse)
  {
    var s := lines[..i + 1];
    assert s[..|s| - 1] == lines[..i] && s[|s| - 1] == lines[i];
  }

  /**
   * A kept line yields its first field normalised as the symbol, its second field
   * stripped as the formula, and the parsed third field as the mass.
   */
  lemma ParseLineValue(raw: string, parse: string -> Option<real>)
    requires ParseLine(raw, parse).Some?
    ensures var parts := Text.Split(Text.Strip(raw), ',');
      |parts| >= 3 && parse(Text.Strip(parts[2])).Some? &&
      ParseLine(raw, parse).value == ImportLine(Text.Normalize(parts[0]), Text.Strip(parts[1]), parse(Text.Strip(parts[2])).value)
  {
  }

  /** A file with no usable line adds nothing and leaves the table as it was. */
  lemma {:induction false} NothingToImport(t: Elements.Table, lines: seq<string>, parse: string -> Option<real>)
    requires forall i :: 0 <= i < |lines| ==> ParseLine(lines[i], parse).None?
    ensures ImportAll(t, lines, parse) == (t, 0)
    decreases |lines|
  {
    if lines != [] {
      NothingToImport(t, lines[..|lines| - 1], parse);
    }
  }

  /** `t1` keeps every entry of `t0` and only appends to its nitrates. */
  predicate OnlyAppends(t0: Elements.Table, t1: Elements.Table) {
    && t0.Keys <= t1.Keys
    && forall k :: k in t0 ==>
         && t1[k].name == t0[k].name && t1[k].mass == t0[k].mass && t1[k].oxides == t0[k].oxides
         && Elements.NitratesOf(t0[k]) <= Elements.NitratesOf(t1[k])
  }

  lemma OnlyAppendsTrans(t0: Elements.Table, t1: Elements.Table, t2: Elements.Table)
    requires OnlyAppends(t0, t1) && OnlyAppends(t1, t2)
    ensures OnlyAppends(t0, t2)
  {
    forall k | k in t0 ensures Elements.NitratesOf(t0[k]) <= Elements.NitratesOf(t2[k]) {
      var a, b, c := Elements.NitratesOf(t0[k]), Elements.NitratesOf(t1[k]), Elements.NitratesOf(t2[k]);
      assert a == b[..|a|] && b == c[..|b|];
      assert c[..|b|][..|a|] == c[..|a|];
    }
  }

  /** One add keeps every entry and only appends; its only possible new key is the normalised symbol. */
  lemma AddOnlyAppends(t: Elements.Table, symbol: string, formula: string, mass: real)
    ensures var t1 := Elements.AddNitrate(t, symbol, formula, mass).0;
      OnlyAppends(t, t1) && t1.Keys <= t.Keys + {Text.Normalize(symbol)}
  {
  }

  /** The keys the parsed lines of `lines` normalise to. */
  function ParsedKeys(lines: seq<string>, parse: string -> Option<real>): set<string> {
    if lines == [] then {}
    else
      var last := ParseLine(lines[|lines| - 1], parse);
      ParsedKeys(lines[..|lines| - 1], parse) + (if last.Some? then {Text.Normalize(last.value.symbol)} else {})
  }

  /**
   * The import never removes or reorders anything: every element stays, with its name,
   * mass and oxides, and its old nitrates in front; the only new keys are the normalised
   * symbols of parsed lines.
   */
  lemma {:induction false} ImportOnlyAppends(t: Elements.Table, lines: seq<string>, parse: string -> Option<real>)
    ensures OnlyAppends(t, ImportAll(t, lines, parse).0)
    ensures ImportAll(t, lines, parse).0.Keys <= t.Keys + ParsedKeys(lines, parse)
    decreases |lines|
  {
    if lines != [] {
      var init := lines[..|lines| - 1];
      ImportOnlyAppends(t, init, parse);
      var prev := ImportAll(t, init, parse);
      match ParseLine(lines[|lines| - 1], parse)
      case None =>
      case Some(l) =>
        AddOnlyAppends(prev.0, l.symbol, l.formula, l.mass);
        OnlyAppendsTrans(t, prev.0, ImportAll(t, lines, parse).0);
    }
  }

  /**
   * One pass of the import loop: the line is parsed and, when it parses, handed to
   * `add_custom_nitrate`; the count goes up when that call adds, and only then is the
   * table saved.
   */
  method HandleLine(info: Elements.ElementInfo, raw: string, parse: string -> Option<real>, count: nat)
    returns (count': nat)
    modifies info
    ensures (info.elements, count') == ImportOne((old(info.elements), count), raw, parse)
    ensures count' > count ==> info.saved == Elements.Projection(info.elements)
    ensures count' == count ==> info.saved == old(info.saved) && info.elements == old(info.elements)
  {
    count' := count;
    match ParseLine(raw, parse) {
      case None =>
      case Some(l) =>
        ImportOneParsed((info.elements, count), raw, parse, l);
        var ok := info.AddCustomNitrate(l.symbol, l.formula, l.mass);
        if ok {
          count' := count + 1;
        }
    }
  }

  /**
   * `import_from_file` after the file is read: the loop over the lines, with the running
   * count of successful adds. Each successful add saves the table, so after at least one
   * the custom-compound file holds the final table's projection.
   */
  method ImportFromLines(info: Elements.ElementInfo, lines: seq<string>, parse: string -> Option<real>)
    returns (addedCount: nat)
    modifies info
    ensures (info.elements, addedCount) == ImportAll(old(info.elements), lines, parse)
    ensures addedCount > 0 ==> info.saved == Elements.Projection(info.elements)
    ensures addedCount == 0 ==> info.saved == old(info.saved)
  {
    addedCount := 0;
    var i := 0;
    while i < |lines|
      invariant 0 <= i <= |lines|
      invariant (info.elements, addedCount) == ImportAll(old(info.elements), lines[..i], parse)
      invariant addedCount > 0 ==> info.saved == Elements.Projection(info.elements)
      invariant addedCount == 0 ==> info.saved == old(info.saved)
    {
      ImportAllStep(old(info.elements), lines, i, parse);
      addedCount := HandleLine(info, lines[i], parse, addedCount);
      i := i + 1;
    }
    assert lines[..i] == lines;
  }
}
