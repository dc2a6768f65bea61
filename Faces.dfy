/**
 * The face expander: `process_card_face` and the per-row branch of the loop in
 * `run_cleaner`, which turns one prepared row into zero, one or two card faces.
 */
module Faces {
  import opened Text
  import opened TypeLine
  import opened ManaCost

  /** A scraped row once `run_cleaner` has prepared its columns: Edition cleaned, Price
      dropped, Type and Mana Cost trimmed. */
  datatype Row = Row(name: string, edition: string, typeLine: string, manaCost: string)

  /** The dict `process_card_face` builds: Name, Edition, the three type fields and the
      mana columns. */
  datatype Face = Face(name: string, edition: string, types: TypeFields, mana: Mana)

  /** The face separator of split and double-faced cards. */
  const FaceSeparator := "//"

  /** `process_card_face`: only Edition is carried over from the row; the name is the
      face's own, and the type and mana columns come from the two parsers. */
  function ProcessCardFace(row: Row, typeStr: string, manaStr: string, faceName: string): Face {
    Face(faceName, row.edition, CleanTypes(typeStr), ParseManaCost(manaStr))
  }

  /** The mana halves of a split row: split on `//` when the cost holds one, otherwise
      the trimmed cost for the first face and nothing for the second. */
  function ManaParts(manaStr: string): (parts: seq<string>)
    ensures |parts| >= 2
  {
    SplitOnSingle(manaStr, FaceSeparator);
    if Contains(manaStr, FaceSeparator) then SplitOn(manaStr, FaceSeparator) else [Strip(manaStr), ""]
  }

  /** A split row is usable when both Name and Type split into exactly two parts. */
  predicate WellSplit(row: Row) {
    |SplitOn(row.name, FaceSeparator)| == 2 && |SplitOn(row.typeLine, FaceSeparator)| == 2
  }

  /** The faces the loop of `run_cleaner` appends for one row. */
  function ExpandRow(row: Row): seq<Face> {
    if Contains(row.typeLine, FaceSeparator) then
      var nameParts := SplitOn(row.name, FaceSeparator);
      var typeParts := SplitOn(row.typeLine, FaceSeparator);
      var manaParts := ManaParts(row.manaCost);
      if !(|nameParts| == 2 && |typeParts| == 2) then []
      else
        [ProcessCardFace(row, Strip(typeParts[0]), Strip(manaParts[0]), Strip(nameParts[0])),
         ProcessCardFace(row, Strip(typeParts[1]), Strip(manaParts[1]), Strip(nameParts[1]))]
    else
      [ProcessCardFace(row, row.typeLine, row.manaCost, row.name)]
  }

  /** A row whose Type has no `//` is one face, with the row's own name and text. */
  lemma SingleFace(row: Row)
    requires !Contains(row.typeLine, FaceSeparator)
    ensures ExpandRow(row) == [Face(row.name, row.edition, CleanTypes(row.typeLine), ParseManaCost(row.manaCost))]
  {
  }

  /** A row is one face exactly when its Type has no `//`, two faces exactly when it does
      and both Name and Type split in two, and no face otherwise: it is skipped. */
  lemma FaceCount(row: Row)
    ensures |ExpandRow(row)| == 1 <==> !Contains(row.typeLine, FaceSeparator)
    ensures |ExpandRow(row)| == 2 <==> Contains(row.typeLine, FaceSeparator) && WellSplit(row)
    ensures ExpandRow(row) == [] <==> Contains(row.typeLine, FaceSeparator) && !WellSplit(row)
  {
  }

  /** The two faces of a split row: each takes the trimmed part of Name and of Type on its
      side of the single `//`, and the row's Edition. */
  lemma SplitFaces(row: Row)
    requires Contains(row.typeLine, FaceSeparator) && WellSplit(row)
    ensures var faces := ExpandRow(row);
      var nameParts := SplitOn(row.name, FaceSeparator);
      var typeParts := SplitOn(row.typeLine, FaceSeparator);
      && |faces| == 2
      && row.name == nameParts[0] + FaceSeparator + nameParts[1]
      && row.typeLine == typeParts[0] + FaceSeparator + typeParts[1]
      && faces[0].name == Strip(nameParts[0]) && faces[1].name == Strip(nameParts[1])
      && faces[0].types == CleanTypes(typeParts[0]) && faces[1].types == CleanTypes(typeParts[1])
      && faces[0].edition == row.edition && faces[1].edition == row.edition
  {
    var nameParts := SplitOn(row.name, FaceSeparator);
    var typeParts := SplitOn(row.typeLine, FaceSeparator);
    JoinSplitOn(row.name, FaceSeparator);
    JoinSplitOn(row.typeLine, FaceSeparator);
    JoinCons(FaceSeparator, nameParts[0], nameParts[1..]);
    JoinCons(FaceSeparator, typeParts[0], typeParts[1..]);
    assert nameParts == [nameParts[0]] + nameParts[1..] && nameParts[1..] == [nameParts[1]];
    assert typeParts == [typeParts[0]] + typeParts[1..] && typeParts[1..] == [typeParts[1]];
    CleanTypesOfStrip(typeParts[0]);
    CleanTypesOfStrip(typeParts[1]);
  }

  /** When the cost of a usable split row has no `//`, the first face gets the whole
      cost and the second face gets the empty cost: CMC 0 and no flag. */
  lemma ManaFallback(row: Row)
    requires Contains(row.typeLine, FaceSeparator) && WellSplit(row)
    requires !Contains(row.manaCost, FaceSeparator)
    ensures ExpandRow(row)[0].mana == ParseManaCost(row.manaCost)
    ensures ExpandRow(row)[1].mana == NoMana
  {
    ParseOfStrip(row.manaCost);
    ParseOfStrip(Strip(row.manaCost));
    assert AllSpace(Strip(""));
  }

  /** When the cost of a usable split row holds `//`, it is cut there once and each face
      parses its own side of the cut. */
  lemma SplitMana(row: Row)
    requires Contains(row.typeLine, FaceSeparator) && WellSplit(row)
    requires Contains(row.manaCost, FaceSeparator)
    ensures var manaParts := SplitOn(row.manaCost, FaceSeparator);
      && |manaParts| >= 2
      && ExpandRow(row)[0].mana == ParseManaCost(manaParts[0])
      && ExpandRow(row)[1].mana == ParseManaCost(manaParts[1])
  {
    var manaParts := SplitOn(row.manaCost, FaceSeparator);
    SplitOnSingle(row.manaCost, FaceSeparator);
    ParseOfStrip(manaParts[0]);
    ParseOfStrip(manaParts[1]);
  }

  /** Every face keeps the row's Edition. */
  lemma EditionKept(row: Row)
    ensures forall f <- ExpandRow(row) :: f.edition == row.edition
  {
  }

  /** Trimming a cost does not change what it parses to. */
  lemma ParseOfStrip(s: string)
    ensures ParseManaCost(Strip(s)) == ParseManaCost(s)
  {
    WordsOfStrip(s);
  }

  /** Trimming a type line does not change what it parses to. */
  lemma CleanTypesOfStrip(s: string)
    ensures CleanTypes(Strip(s)) == CleanTypes(s)
  {
    StripIdempotent(s);
  }
}
