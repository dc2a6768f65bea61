/**
 * The normalisers `normalise_subtypes` and `normalise_edition`: the clean card table is
 * split into a fact table, an edition lookup, a subtype lookup and a card-subtype link
 * table. Every table is a sequence of rows in pandas row order.
 */
module Normalise {
  import opened Text
  import opened TypeLine
  import opened ManaCost

  /** A row of the clean table before normalising: Card_ID, Name, Edition, Super_Type,
      Primary_Type, Subtypes_List and the mana columns. */
  datatype CardRow = CardRow(cardId: nat, name: string, edition: string, types: TypeFields, mana: Mana)

  /** A row once Subtypes_List has been dropped. */
  datatype CardFacts = CardFacts(
    cardId: nat, name: string, edition: string, superType: string, primaryType: string, mana: Mana)

  /** A row of the subtype lookup: Subtype_Name, Subtype_ID. */
  datatype SubtypeEntry = SubtypeEntry(name: string, id: nat)

  /** A row of the card-subtype link table: Card_ID, Subtype_ID. */
  datatype Link = Link(cardId: nat, subtypeId: nat)

  /** A row of the edition lookup: Edition_Name, Edition_ID. */
  datatype EditionEntry = EditionEntry(name: string, id: nat)

  /** A row of the final fact table, its fields in the column order Card_ID, Edition_ID,
      Name, Super_Type, Primary_Type, CMC, Is_Hybrid, Generic_Mana, Is_X, Is_W, Is_U,
      Is_B, Is_R, Is_G, Is_C. */
  datatype CardDetail = CardDetail(
    cardId: nat, editionId: nat, name: string, superType: string, primaryType: string,
    cmc: nat, isHybrid: bool, genericMana: nat, isX: bool,
    isW: bool, isU: bool, isB: bool, isR: bool, isG: bool, isC: bool)

  // ---------------------------------------------------------------------------------
  // First-seen distinct values and positions
  // ---------------------------------------------------------------------------------

  predicate NoDuplicates<T(==)>(xs: seq<T>) {
    forall i, j | 0 <= i < j < |xs| :: xs[i] != xs[j]
  }

  /** The position of the first occurrence of `x` in `xs`. */
  function IndexOf<T(==)>(xs: seq<T>, x: T): (r: nat)
    requires x in xs
    ensures r < |xs| && xs[r] == x
  {
    if xs[0] == x then 0 else 1 + IndexOf(xs[1..], x)
  }

  lemma {:induction false} IndexOfIsFirst<T>(xs: seq<T>, x: T)
    requires x in xs
    ensures forall k :: 0 <= k < IndexOf(xs, x) ==> xs[k] != x
  {
    if xs[0] != x {
      IndexOfIsFirst(xs[1..], x);
      forall k | 0 < k < IndexOf(xs, x) ensures xs[k] != x {
        assert xs[k] == xs[1..][k - 1];
      }
    }
  }

  /** In a sequence without duplicates, the position of an element is its index. */
  lemma IndexOfDistinct<T>(xs: seq<T>, i: nat)
    requires NoDuplicates(xs) && i < |xs|
    ensures IndexOf(xs, xs[i]) == i
  {
    IndexOfIsFirst(xs, xs[i]);
  }

  lemma {:induction false} IndexOfAppend<T>(xs: seq<T>, y: T, x: T)
    requires x in xs
    ensures IndexOf(xs + [y], x) == IndexOf(xs, x)
  {
    if xs[0] != x {
      assert (xs + [y])[1..] == xs[1..] + [y];
      IndexOfAppend(xs[1..], y, x);
    }
  }

  lemma IndexOfNew<T>(xs: seq<T>, y: T)
    requires y !in xs
    ensures IndexOf(xs + [y], y) == |xs|
  {
  }

  /** `drop_duplicates()`: the values of `xs`, each once, in the order they are first seen. */
  function Distinct<T(==)>(xs: seq<T>): seq<T>
    decreases |xs|
  {
    if xs == [] then []
    else
      var d := Distinct(xs[..|xs| - 1]);
      if xs[|xs| - 1] in d then d else d + [xs[|xs| - 1]]
  }

  lemma DistinctLast<T>(xs: seq<T>, y: T)
    ensures Distinct(xs + [y]) == if y in Distinct(xs) then Distinct(xs) else Distinct(xs) + [y]
  {
    assert (xs + [y])[..|xs|] == xs;
  }

  /** Distinct keeps every value and adds none, lists each once, and lists them in the
      order of their first occurrence. */
  lemma {:induction false} DistinctSpec<T>(xs: seq<T>)
    ensures forall x :: x in Distinct(xs) <==> x in xs
    ensures NoDuplicates(Distinct(xs))
    ensures forall i, j :: 0 <= i < j < |Distinct(xs)| ==>
      IndexOf(xs, Distinct(xs)[i]) < IndexOf(xs, Distinct(xs)[j])
    decreases |xs|
  {
    if xs != [] {
      var init, y := xs[..|xs| - 1], xs[|xs| - 1];
      assert xs == init + [y];
      DistinctSpec(init);
      DistinctLast(init, y);
      var d := Distinct(init);
      forall x | x in init ensures IndexOf(xs, x) == IndexOf(init, x) {
        IndexOfAppend(init, y, x);
      }
      if y !in d {
        IndexOfNew(init, y);
        forall i | 0 <= i < |d| ensures IndexOf(xs, d[i]) < IndexOf(xs, y) {
          assert d[i] in d;
        }
      }
    }
  }

  // ---------------------------------------------------------------------------------
  // normalise_subtypes
  // ---------------------------------------------------------------------------------

  /** The stripped, non-empty values among `parts`, in order. */
  function NonEmptyStripped(parts: seq<string>): seq<string>
    decreases |parts|
  {
    if parts == [] then []
    else
      var p := Strip(parts[|parts| - 1]);
      NonEmptyStripped(parts[..|parts| - 1]) + (if p != "" then [p] else [])
  }

  /** A kept value is the non-empty stripped form of some part, and each such form is kept. */
  lemma {:induction false} NonEmptyStrippedIff(parts: seq<string>)
    ensures forall p :: p in NonEmptyStripped(parts) <==> p != "" && exists q :: q in parts && Strip(q) == p
    decreases |parts|
  {
    if parts != [] {
      var init := parts[..|parts| - 1];
      NonEmptyStrippedIff(init);
      assert parts == init + [parts[|parts| - 1]];
    }
  }

  /** `.str.split(",").explode().str.strip()` then the filter `!= ""`, on one row. */
  function Pieces(subtypesList: string): seq<string> {
    NonEmptyStripped(SplitOn(subtypesList, ","))
  }

  /** The subtype series: the pieces of every row, row after row. */
  function AllPieces(rows: seq<CardRow>): seq<string>
    decreases |rows|
  {
    if rows == [] then []
    else AllPieces(rows[..|rows| - 1]) + Pieces(rows[|rows| - 1].types.subtypesList)
  }

  lemma {:induction false} AllPiecesIff(rows: seq<CardRow>)
    ensures forall p :: p in AllPieces(rows) <==> exists r :: r in rows && p in Pieces(r.types.subtypesList)
    decreases |rows|
  {
    if rows != [] {
      var init := rows[..|rows| - 1];
      AllPiecesIff(init);
      assert rows == init + [rows[|rows| - 1]];
    }
  }

  /** The Subtype_Name column of the lookup. */
  function SubtypeNames(rows: seq<CardRow>): seq<string> {
    Distinct(AllPieces(rows))
  }

  /** The subtype lookup: the distinct names with IDs from 1. */
  function SubtypeLookup(rows: seq<CardRow>): seq<SubtypeEntry> {
    var names := SubtypeNames(rows);
    seq(|names|, i requires 0 <= i < |names| => SubtypeEntry(names[i], i + 1))
  }

  /** The (Card_ID, Subtype_Name) pairs of one row, one per piece. */
  function RowPairs(cardId: nat, pieces: seq<string>): seq<(nat, string)> {
    seq(|pieces|, k requires 0 <= k < |pieces| => (cardId, pieces[k]))
  }

  /** The exploded link frame: the (Card_ID, Subtype_Name) pairs of every row, row after row. */
  function NamedPairs(rows: seq<CardRow>): seq<(nat, string)>
    decreases |rows|
  {
    if rows == [] then []
    else
      var last := rows[|rows| - 1];
      NamedPairs(rows[..|rows| - 1]) + RowPairs(last.cardId, Pieces(last.types.subtypesList))
  }

  /** The merge with the lookup: each pair's name replaced by its Subtype_ID. */
  function MergedLinks(pairs: seq<(nat, string)>, names: seq<string>): seq<Link>
    requires forall pr <- pairs :: pr.1 in names
  {
    seq(|pairs|, k requires 0 <= k < |pairs| => Link(pairs[k].0, IndexOf(names, pairs[k].1) + 1))
  }

  lemma RowPairsIff(cardId: nat, pieces: seq<string>)
    ensures forall c, p :: (c, p) in RowPairs(cardId, pieces) <==> c == cardId && p in pieces
  {
    var prs := RowPairs(cardId, pieces);
    forall c, p | c == cardId && p in pieces ensures (c, p) in prs {
      var k :| 0 <= k < |pieces| && pieces[k] == p;
      assert prs[k] == (c, p);
    }
  }

  /** A pair is in the exploded frame exactly when some row with that Card_ID lists that
      subtype. */
  lemma {:induction false} NamedPairsIff(rows: seq<CardRow>)
    ensures forall c, p :: (c, p) in NamedPairs(rows) <==>
      exists r :: r in rows && r.cardId == c && p in Pieces(r.types.subtypesList)
    decreases |rows|
  {
    if rows != [] {
      var init, last := rows[..|rows| - 1], rows[|rows| - 1];
      assert rows == init + [last];
      NamedPairsIff(init);
      RowPairsIff(last.cardId, Pieces(last.types.subtypesList));
    }
  }

  lemma PairsNamed(rows: seq<CardRow>)
    ensures forall pr <- NamedPairs(rows) :: pr.1 in SubtypeNames(rows)
  {
    NamedPairsIff(rows);
    AllPiecesIff(rows);
    DistinctSpec(AllPieces(rows));
    forall pr | pr in NamedPairs(rows) ensures pr.1 in SubtypeNames(rows) {
      assert (pr.0, pr.1) == pr;
    }
  }

  /** The link table: the merged pairs with duplicates dropped. */
  function SubtypeLinks(rows: seq<CardRow>): seq<Link> {
    PairsNamed(rows);
    Distinct(MergedLinks(NamedPairs(rows), SubtypeNames(rows)))
  }

  /** The card table with Subtypes_List dropped. */
  function DropSubtypes(rows: seq<CardRow>): seq<CardFacts> {
    seq(|rows|, i requires 0 <= i < |rows| =>
      CardFacts(rows[i].cardId, rows[i].name, rows[i].edition,
                rows[i].types.superType, rows[i].types.primaryType, rows[i].mana))
  }

  /** `normalise_subtypes`: the card table without subtypes, the subtype lookup and the
      link table. */
  function NormaliseSubtypes(rows: seq<CardRow>): (seq<CardFacts>, seq<SubtypeEntry>, seq<Link>) {
    (DropSubtypes(rows), SubtypeLookup(rows), SubtypeLinks(rows))
  }

  lemma NonEmptyPieces(s: string)
    ensures forall p <- Pieces(s) :: p != "" && Strip(p) == p
  {
    NonEmptyStrippedIff(SplitOn(s, ","));
    forall p | p in Pieces(s) ensures Strip(p) == p {
      StripCharsEdges(p, Whitespace);
    }
  }

  /** The lookup numbers the subtype names 1..K in order, and no name appears twice. */
  lemma SubtypeIdsDense(rows: seq<CardRow>)
    ensures var lookup := SubtypeLookup(rows);
      && |lookup| == |SubtypeNames(rows)|
      && (forall i :: 0 <= i < |lookup| ==> lookup[i] == SubtypeEntry(SubtypeNames(rows)[i], i + 1))
      && NoDuplicates(SubtypeNames(rows))
  {
    DistinctSpec(AllPieces(rows));
  }

  /** The lookup names exactly the subtypes the rows list, each non-empty and trimmed. */
  lemma SubtypeNamesListed(rows: seq<CardRow>)
    ensures forall p :: p in SubtypeNames(rows) <==> exists r :: r in rows && p in Pieces(r.types.subtypesList)
    ensures forall p <- SubtypeNames(rows) :: p != "" && Strip(p) == p
  {
    DistinctSpec(AllPieces(rows));
    AllPiecesIff(rows);
    forall p | p in SubtypeNames(rows) ensures p != "" && Strip(p) == p {
      var r :| r in rows && p in Pieces(r.types.subtypesList);
      NonEmptyPieces(r.types.subtypesList);
    }
  }

  /** The lookup lists the subtypes in the order in which they first appear, row by row
      and left to right within a row. */
  lemma SubtypeFirstSeenOrder(rows: seq<CardRow>)
    ensures forall p <- SubtypeNames(rows) :: p in AllPieces(rows)
    ensures var names := SubtypeNames(rows);
      forall i, j :: 0 <= i < j < |names| ==>
        IndexOf(AllPieces(rows), names[i]) < IndexOf(AllPieces(rows), names[j])
  {
    DistinctSpec(AllPieces(rows));
  }

  /** Merging keeps a pair exactly when its name is the subtype with that ID. */
  lemma MergedLinksIff(pairs: seq<(nat, string)>, names: seq<string>)
    requires NoDuplicates(names)
    requires forall pr <- pairs :: pr.1 in names
    ensures forall c: nat, s: nat :: Link(c, s) in MergedLinks(pairs, names) <==>
      1 <= s <= |names| && (c, names[s - 1]) in pairs
  {
    var ls := MergedLinks(pairs, names);
    forall c: nat, s: nat | Link(c, s) in ls ensures 1 <= s <= |names| && (c, names[s - 1]) in pairs {
      var k :| 0 <= k < |ls| && ls[k] == Link(c, s);
      assert pairs[k] == (c, names[s - 1]);
    }
    forall c, s | 1 <= s <= |names| && (c, names[s - 1]) in pairs ensures Link(c, s) in ls {
      var k :| 0 <= k < |pairs| && pairs[k] == (c, names[s - 1]);
      IndexOfDistinct(names, s - 1);
      assert ls[k] == Link(c, s);
    }
  }

  /** The link table has no duplicate rows, and a pair (c, s) is in it exactly when s is a
      Subtype_ID of the lookup whose name a row with Card_ID c lists. */
  lemma SubtypeLinksSpec(rows: seq<CardRow>)
    ensures var lookup := SubtypeLookup(rows);
      var links := SubtypeLinks(rows);
      && NoDuplicates(links)
      && (forall c: nat, s: nat :: Link(c, s) in links <==>
            1 <= s <= |lookup| &&
            exists r :: r in rows && r.cardId == c && lookup[s - 1].name in Pieces(r.types.subtypesList))
  {
    var names := SubtypeNames(rows);
    PairsNamed(rows);
    var merged := MergedLinks(NamedPairs(rows), names);
    DistinctSpec(merged);
    SubtypeIdsDense(rows);
    MergedLinksIff(NamedPairs(rows), names);
    NamedPairsIff(rows);
  }

  // ---------------------------------------------------------------------------------
  // normalise_edition
  // ---------------------------------------------------------------------------------

  /** The Edition column. */
  function Editions(facts: seq<CardFacts>): seq<string> {
    seq(|facts|, i requires 0 <= i < |facts| => facts[i].edition)
  }

  /** The Edition_Name column of the lookup: the distinct editions, first seen first. */
  function EditionNames(facts: seq<CardFacts>): seq<string> {
    Distinct(Editions(facts))
  }

  /** The edition lookup: the distinct editions with IDs from 1. */
  function EditionLookup(facts: seq<CardFacts>): seq<EditionEntry> {
    var names := EditionNames(facts);
    seq(|names|, i requires 0 <= i < |names| => EditionEntry(names[i], i + 1))
  }

  /** The fact-table row of a card with the given Edition_ID: the Edition column replaced
      by its ID and the colour set spread over the six flag columns. */
  function Detail(f: CardFacts, editionId: nat): CardDetail {
    CardDetail(f.cardId, editionId, f.name, f.superType, f.primaryType,
               f.mana.cmc, f.mana.isHybrid, f.mana.genericMana, f.mana.isX,
               W in f.mana.colours, U in f.mana.colours, B in f.mana.colours,
               R in f.mana.colours, G in f.mana.colours, C in f.mana.colours)
  }

  lemma EditionsListed(facts: seq<CardFacts>, i: nat)
    requires i < |facts|
    ensures facts[i].edition in EditionNames(facts)
  {
    DistinctSpec(Editions(facts));
    assert Editions(facts)[i] == facts[i].edition;
  }

  /** `normalise_edition`: the fact table, whose rows carry Edition_ID in place of the
      edition text, and the edition lookup. */
  function NormaliseEdition(facts: seq<CardFacts>): (seq<CardDetail>, seq<EditionEntry>) {
    var names := EditionNames(facts);
    var details := seq(|facts|, i requires 0 <= i < |facts| =>
      EditionsListed(facts, i);
      Detail(facts[i], IndexOf(names, facts[i].edition) + 1));
    (details, EditionLookup(facts))
  }

  /** The lookup numbers the editions 1..E in order, and no edition appears twice. */
  lemma EditionIdsDense(facts: seq<CardFacts>)
    ensures var lookup := EditionLookup(facts);
      && |lookup| == |EditionNames(facts)|
      && (forall i :: 0 <= i < |lookup| ==> lookup[i] == EditionEntry(EditionNames(facts)[i], i + 1))
      && NoDuplicates(EditionNames(facts))
  {
    DistinctSpec(Editions(facts));
  }

  /** The lookup names exactly the editions of the cards, in the order in which they are
      first seen. */
  lemma EditionNamesListed(facts: seq<CardFacts>)
    ensures forall e :: e in EditionNames(facts) <==> exists k :: 0 <= k < |facts| && facts[k].edition == e
    ensures forall e <- EditionNames(facts) :: e in Editions(facts)
    ensures var names := EditionNames(facts);
      forall i, j :: 0 <= i < j < |names| ==>
        IndexOf(Editions(facts), names[i]) < IndexOf(Editions(facts), names[j])
  {
    DistinctSpec(Editions(facts));
    forall e | e in EditionNames(facts) ensures exists k :: 0 <= k < |facts| && facts[k].edition == e {
      var k :| 0 <= k < |facts| && Editions(facts)[k] == e;
    }
    forall k | 0 <= k < |facts| ensures facts[k].edition in EditionNames(facts) {
      EditionsListed(facts, k);
    }
  }

  /** The fact table keeps every card, in order, with its other columns unchanged, and
      gives each the Edition_ID whose lookup row names the card's edition. */
  lemma EditionIdsResolve(facts: seq<CardFacts>)
    ensures var (details, lookup) := NormaliseEdition(facts);
      && |details| == |facts|
      && forall i :: 0 <= i < |facts| ==>
           && 1 <= details[i].editionId <= |lookup|
           && lookup[details[i].editionId - 1] == EditionEntry(facts[i].edition, details[i].editionId)
           && details[i] == Detail(facts[i], details[i].editionId)
  {
    EditionIdsDense(facts);
  }
}
