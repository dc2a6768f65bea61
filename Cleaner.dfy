/**
 * The orchestrator `run_cleaner`: cleans the Edition, Type and Mana Cost columns, drops
 * Price, expands every row into its card faces, numbers the faces with Card_ID, and
 * normalises subtypes and editions into the four output tables.
 */
module Cleaner {
  import opened Wrappers
  import opened Text
  import opened TypeLine
  import opened ManaCost
  import opened Faces
  import opened Normalise

  /** PREFIX_TO_REMOVE. */
  const PrefixToRemove := "Cheapest Recent Printing - "

  /** A scraped row as it enters the cleaner; a missing cell is None. */
  datatype RawRow = RawRow(
    name: string, edition: Option<string>, price: Option<real>,
    typeLine: Option<string>, manaCost: Option<string>)

  /** The four tables `run_cleaner` returns. */
  datatype Tables = Tables(
    cardDetails: seq<CardDetail>, editionLookup: seq<EditionEntry>,
    subtypeLookup: seq<SubtypeEntry>, cardSubtypeLink: seq<Link>)

  /** Why the cleaner cannot produce the tables: with no face at all the clean table has
      no Subtypes_List column and `normalise_subtypes` fails. */
  datatype CleanerError = NoCardFaces

  /** `astype(str)`: a missing cell becomes the text "nan". */
  function AsText(cell: Option<string>): string {
    if cell.Some? then cell.value else "nan"
  }

  /** `fillna("")`. */
  function OrEmpty(cell: Option<string>): string {
    if cell.Some? then cell.value else ""
  }

  /** The Edition cleaning: every occurrence of the prefix removed in one left-to-right
      pass, then the result trimmed. */
  function CleanEdition(edition: Option<string>): string {
    Strip(RemoveAll(AsText(edition), PrefixToRemove))
  }

  /** Steps 1 and 2 and the column preparation: Edition cleaned, Price dropped, Type and
      Mana Cost filled and trimmed. */
  function PrepareRow(raw: RawRow): Row {
    Row(raw.name, CleanEdition(raw.edition), Strip(OrEmpty(raw.typeLine)), Strip(OrEmpty(raw.manaCost)))
  }

  function PrepareAll(df: seq<RawRow>): seq<Row> {
    seq(|df|, i requires 0 <= i < |df| => PrepareRow(df[i]))
  }

  /** The lists of a sequence concatenated in order. */
  function Flatten<T>(xss: seq<seq<T>>): seq<T>
    decreases |xss|
  {
    if xss == [] then [] else Flatten(xss[..|xss| - 1]) + xss[|xss| - 1]
  }

  /** The faces each row expands into, row by row. */
  function RowFaces(rows: seq<Row>): seq<seq<Face>> {
    seq(|rows|, i requires 0 <= i < |rows| => ExpandRow(rows[i]))
  }

  /** `final_rows`: the faces of every row, row after row. */
  function ExpandAll(rows: seq<Row>): seq<Face> {
    Flatten(RowFaces(rows))
  }

  /** The clean table: each face numbered with Card_ID, its position plus one. */
  function NumberFaces(faces: seq<Face>): seq<CardRow> {
    seq(|faces|, i requires 0 <= i < |faces| =>
      CardRow(i + 1, faces[i].name, faces[i].edition, faces[i].types, faces[i].mana))
  }

  /** `run_cleaner`. */
  function Clean(df: seq<RawRow>): Result<Tables, CleanerError> {
    var faces := ExpandAll(PrepareAll(df));
    if faces == [] then Failure(NoCardFaces)
    else
      var (cardTemp, subtypeLookup, links) := NormaliseSubtypes(NumberFaces(faces));
      var (details, editionLookup) := NormaliseEdition(cardTemp);
      Success(Tables(details, editionLookup, subtypeLookup, links))
  }

  // ---------------------------------------------------------------------------------
  // The loop of run_cleaner
  // ---------------------------------------------------------------------------------

  lemma FlattenLast<T>(xss: seq<seq<T>>, xs: seq<T>)
    ensures Flatten(xss + [xs]) == Flatten(xss) + xs
  {
    assert (xss + [xs])[..|xss|] == xss;
  }

  lemma FlattenPrefixStep<T>(xss: seq<seq<T>>, i: nat)
    requires i < |xss|
    ensures Flatten(xss[..i + 1]) == Flatten(xss[..i]) + xss[i]
  {
    assert xss[..i + 1] == xss[..i] + [xss[i]];
    FlattenLast(xss[..i], xss[i]);
  }

  /** The loop body for a split or double-faced row (its Type holds `//`): Name, Type
      and Mana Cost are cut at `//`, and the two faces are appended unless Name or Type
      does not cut into exactly two parts, in which case the row is skipped. */
  method AppendSplitFaces(finalRows: seq<Face>, row: Row) returns (r: seq<Face>)
    requires Contains(row.typeLine, FaceSeparator)
    ensures r == finalRows + ExpandRow(row)
  {
    r := finalRows;
    var nameParts := SplitOn(row.name, FaceSeparator);
    var typeParts := SplitOn(row.typeLine, FaceSeparator);
    var manaParts;
    if Contains(row.manaCost, FaceSeparator) {
      SplitOnSingle(row.manaCost, FaceSeparator);
      manaParts := SplitOn(row.manaCost, FaceSeparator);
    } else {
      manaParts := [Strip(row.manaCost), ""];
    }
    assert manaParts == ManaParts(row.manaCost);
    if !(|nameParts| == 2 && |typeParts| == 2) {
      return;
    }
    var first := ProcessCardFace(row, Strip(typeParts[0]), Strip(manaParts[0]), Strip(nameParts[0]));
    var second := ProcessCardFace(row, Strip(typeParts[1]), Strip(manaParts[1]), Strip(nameParts[1]));
    assert ExpandRow(row) == [first, second];
    r := r + [first];
    r := r + [second];
  }

  /** The body of the loop for one row: the faces it appends to `final_rows`. */
  method AppendFaces(finalRows: seq<Face>, row: Row) returns (r: seq<Face>)
    ensures r == finalRows + ExpandRow(row)
  {
    if Contains(row.typeLine, FaceSeparator) {
      r := AppendSplitFaces(finalRows, row);
    } else {
      r := finalRows + [ProcessCardFace(row, row.typeLine, row.manaCost, row.name)];
    }
  }

  /** The loop of `run_cleaner` over the rows, appending each row's faces. */
  method ExpandRows(df: seq<Row>) returns (finalRows: seq<Face>)
    ensures finalRows == ExpandAll(df)
  {
    finalRows := [];
    for i := 0 to |df|
      invariant finalRows == Flatten(RowFaces(df)[..i])
    {
      finalRows := AppendFaces(finalRows, df[i]);
      FlattenPrefixStep(RowFaces(df), i);
    }
    assert RowFaces(df)[..|df|] == RowFaces(df);
  }

  /** `run_cleaner` as the source writes it: the columns are prepared, the faces are
      collected by the loop, numbered, and normalised. */
  method RunCleaner(df: seq<RawRow>) returns (r: Result<Tables, CleanerError>)
    ensures r == Clean(df)
  {
    var prepared := PrepareAll(df);
    var finalRows := ExpandRows(prepared);
    if finalRows == [] {
      return Failure(NoCardFaces);
    }
    var cleanDf := NumberFaces(finalRows);
    var (cardDfTemp, subtypeLookupDf, cardSubtypeLinkDf) := NormaliseSubtypes(cleanDf);
    var (finalCardDf, editionLookupDf) := NormaliseEdition(cardDfTemp);
    r := Success(Tables(finalCardDf, editionLookupDf, subtypeLookupDf, cardSubtypeLinkDf));
  }

  // ---------------------------------------------------------------------------------
  // Properties
  // ---------------------------------------------------------------------------------

  lemma RemoveAllAfterPrefix(t: string)
    ensures RemoveAll(PrefixToRemove + t, PrefixToRemove) == RemoveAll(t, PrefixToRemove)
  {
    var s := PrefixToRemove + t;
    assert OccursAt(s, PrefixToRemove, 0) by {
      assert s[..|PrefixToRemove|] == PrefixToRemove;
    }
    assert Find(s, PrefixToRemove) == Some(0);
    RemoveAllUnfold(s, PrefixToRemove, 0);
    assert s[|PrefixToRemove|..] == t;
  }

  /** A leading prefix is removed: the cleaned edition is that of the rest of the text. */
  lemma CleanEditionDropsPrefix(t: string)
    ensures CleanEdition(Some(PrefixToRemove + t)) == CleanEdition(Some(t))
  {
    RemoveAllAfterPrefix(t);
  }

  /** The cleaned edition is trimmed, and a text without the prefix is only trimmed. */
  lemma CleanEditionTrims(e: Option<string>)
    ensures Strip(CleanEdition(e)) == CleanEdition(e)
    ensures !Contains(AsText(e), PrefixToRemove) ==> CleanEdition(e) == Strip(AsText(e))
  {
    StripIdempotent(RemoveAll(AsText(e), PrefixToRemove));
  }

  /** An edition given as the prefix followed by a trimmed name holding no further
      prefix, such as "Cheapest Recent Printing - Unfinity", cleans to that name. */
  lemma CleanEditionOfPrefixed(t: string)
    requires !Contains(t, PrefixToRemove)
    requires t == [] || (!IsSpace(t[0]) && !IsSpace(t[|t| - 1]))
    ensures CleanEdition(Some(PrefixToRemove + t)) == t
  {
    CleanEditionDropsPrefix(t);
    StripCharsEdges(t, Whitespace);
  }

  lemma {:induction false} FlattenEmpty<T>(xss: seq<seq<T>>)
    ensures Flatten(xss) == [] <==> forall i :: 0 <= i < |xss| ==> xss[i] == []
    decreases |xss|
  {
    if xss != [] {
      var init := xss[..|xss| - 1];
      FlattenEmpty(init);
      assert forall i :: 0 <= i < |init| ==> init[i] == xss[i];
    }
  }

  /** No face comes out of a list of rows exactly when every row is a split row whose
      Name or Type does not split in two. */
  lemma NoFacesIff(rows: seq<Row>)
    ensures ExpandAll(rows) == [] <==>
      forall row <- rows :: Contains(row.typeLine, FaceSeparator) && !WellSplit(row)
  {
    var faces := RowFaces(rows);
    FlattenEmpty(faces);
    forall i | 0 <= i < |rows|
      ensures faces[i] == [] <==> Contains(rows[i].typeLine, FaceSeparator) && !WellSplit(rows[i])
    {
      FaceCount(rows[i]);
    }
  }

  /** The cleaner fails exactly when every prepared row is a split row whose Name or Type
      does not split in two. */
  lemma FailsOnlyWithoutFaces(df: seq<RawRow>)
    ensures Clean(df).Failure? <==>
      forall row <- PrepareAll(df) :: Contains(row.typeLine, FaceSeparator) && !WellSplit(row)
  {
    NoFacesIff(PrepareAll(df));
  }

  /** The card facts of numbered faces: one per face, in order, with Card_ID running
      1..N and the face's own columns. */
  lemma NumberedFacts(faces: seq<Face>)
    ensures var facts := DropSubtypes(NumberFaces(faces));
      && |facts| == |faces|
      && forall i :: 0 <= i < |faces| ==>
           facts[i] == CardFacts(i + 1, faces[i].name, faces[i].edition,
                                 faces[i].types.superType, faces[i].types.primaryType, faces[i].mana)
  {
  }

  /** The card table of numbered faces: each row carries its face's columns and an
      Edition_ID whose lookup row names the face's edition. */
  lemma NumberedDetails(faces: seq<Face>)
    ensures var (details, lookup) := NormaliseEdition(DropSubtypes(NumberFaces(faces)));
      && |details| == |faces|
      && forall i :: 0 <= i < |faces| ==>
           && 1 <= details[i].editionId <= |lookup|
           && lookup[details[i].editionId - 1].name == faces[i].edition
           && details[i] == Detail(
                CardFacts(i + 1, faces[i].name, faces[i].edition,
                          faces[i].types.superType, faces[i].types.primaryType, faces[i].mana),
                details[i].editionId)
  {
    NumberedFacts(faces);
    EditionIdsResolve(DropSubtypes(NumberFaces(faces)));
  }

  /** The card table of a successful run: one row per face in order, Card_ID running
      1..N, each row carrying its face's name, type fields and mana columns, and an
      Edition_ID whose lookup row names the face's edition. */
  lemma CardDetailsSpec(df: seq<RawRow>)
    requires Clean(df).Success?
    ensures var faces := ExpandAll(PrepareAll(df));
      var t := Clean(df).value;
      && |t.cardDetails| == |faces|
      && forall i :: 0 <= i < |faces| ==>
           && t.cardDetails[i].cardId == i + 1
           && 1 <= t.cardDetails[i].editionId <= |t.editionLookup|
           && t.editionLookup[t.cardDetails[i].editionId - 1].name == faces[i].edition
           && t.cardDetails[i] == Detail(
                CardFacts(i + 1, faces[i].name, faces[i].edition,
                          faces[i].types.superType, faces[i].types.primaryType, faces[i].mana),
                t.cardDetails[i].editionId)
  {
    NumberedDetails(ExpandAll(PrepareAll(df)));
  }

  /** A row of the numbered table carries the face its Card_ID names. */
  lemma NumberedRow(faces: seq<Face>, r: CardRow)
    requires r in NumberFaces(faces)
    ensures 1 <= r.cardId <= |faces| && r.types == faces[r.cardId - 1].types
  {
  }

  /** A link of the numbered table names a face and a subtype that face lists. */
  lemma LinkIsListed(faces: seq<Face>, c: nat, s: nat)
    requires Link(c, s) in SubtypeLinks(NumberFaces(faces))
    ensures var lookup := SubtypeLookup(NumberFaces(faces));
      && 1 <= c <= |faces| && 1 <= s <= |lookup|
      && lookup[s - 1].name in Pieces(faces[c - 1].types.subtypesList)
  {
    var rows := NumberFaces(faces);
    var lookup := SubtypeLookup(rows);
    SubtypeLinksSpec(rows);
    var r :| r in rows && r.cardId == c && lookup[s - 1].name in Pieces(r.types.subtypesList);
    NumberedRow(faces, r);
  }

  /** Every subtype a face lists is linked to that face's Card_ID. */
  lemma ListedIsLink(faces: seq<Face>, c: nat, s: nat)
    requires 1 <= c <= |faces| && 1 <= s <= |SubtypeLookup(NumberFaces(faces))|
    requires SubtypeLookup(NumberFaces(faces))[s - 1].name in Pieces(faces[c - 1].types.subtypesList)
    ensures Link(c, s) in SubtypeLinks(NumberFaces(faces))
  {
    var rows := NumberFaces(faces);
    SubtypeLinksSpec(rows);
    assert rows[c - 1] in rows;
  }

  /** The link table of numbered faces: no duplicate rows, and (c, s) is a link exactly
      when face c lists the subtype whose lookup ID is s. */
  lemma NumberedLinks(faces: seq<Face>)
    ensures var rows := NumberFaces(faces);
      var lookup := SubtypeLookup(rows);
      var links := SubtypeLinks(rows);
      && NoDuplicates(links)
      && forall c: nat, s: nat :: Link(c, s) in links <==>
           && 1 <= c <= |faces| && 1 <= s <= |lookup|
           && lookup[s - 1].name in Pieces(faces[c - 1].types.subtypesList)
  {
    var rows := NumberFaces(faces);
    var lookup := SubtypeLookup(rows);
    var links := SubtypeLinks(rows);
    SubtypeLinksSpec(rows);
    forall c: nat, s: nat
      ensures Link(c, s) in links <==>
        && 1 <= c <= |faces| && 1 <= s <= |lookup|
        && lookup[s - 1].name in Pieces(faces[c - 1].types.subtypesList)
    {
      if Link(c, s) in links {
        LinkIsListed(faces, c, s);
      } else if 1 <= c <= |faces| && 1 <= s <= |lookup|
             && lookup[s - 1].name in Pieces(faces[c - 1].types.subtypesList) {
        ListedIsLink(faces, c, s);
      }
    }
  }

  /** The link table of a successful run: no duplicate rows, and (c, s) is a link exactly
      when the face with Card_ID c lists the subtype whose lookup ID is s; so both IDs of
      every link resolve. */
  lemma LinksSpec(df: seq<RawRow>)
    requires Clean(df).Success?
    ensures var faces := ExpandAll(PrepareAll(df));
      var t := Clean(df).value;
      && NoDuplicates(t.cardSubtypeLink)
      && forall c: nat, s: nat :: Link(c, s) in t.cardSubtypeLink <==>
           && 1 <= c <= |faces| && 1 <= s <= |t.subtypeLookup|
           && t.subtypeLookup[s - 1].name in Pieces(faces[c - 1].types.subtypesList)
  {
    NumberedLinks(ExpandAll(PrepareAll(df)));
  }
}
