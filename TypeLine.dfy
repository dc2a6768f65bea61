/**
 * The type-line parser `clean_types`: splits a card's type text into its
 * super-types, primary types and comma-joined subtypes.
 */
module TypeLine {
  import opened Wrappers
  import opened Text

  /** SUPER_TYPES_MTG: the super-type vocabulary, upper-cased. */
  const SuperTypes: set<string> :=
    {"BASIC", "LEGENDARY", "ONGOING", "SNOW", "WORLD", "TRIBAL", "PLANE"}

  /** The three fields `clean_types` returns. */
  datatype TypeFields = TypeFields(superType: string, primaryType: string, subtypesList: string)

  const NoTypes := TypeFields("", "", "")

  /** The separator class `[-—]`: hyphen-minus or em dash. */
  predicate IsDash(c: char) {
    c == '-' || c == '\U{2014}'
  }

  /** The index of the first dash at or after `from`. */
  function FirstDashFrom(s: string, from: nat): (r: Option<nat>)
    requires from <= |s|
    ensures r.Some? ==> from <= r.value < |s| && IsDash(s[r.value])
    decreases |s| - from
  {
    if from == |s| then None
    else if IsDash(s[from]) then Some(from)
    else FirstDashFrom(s, from + 1)
  }

  /** The index of the first dash of `s`, if any. */
  function FirstDash(s: string): (r: Option<nat>)
    ensures r.Some? ==> r.value < |s| && IsDash(s[r.value])
  {
    FirstDashFrom(s, 0)
  }

  lemma {:induction false} FirstDashFromIsFirst(s: string, from: nat)
    requires from <= |s|
    ensures FirstDashFrom(s, from).None? ==> forall j :: from <= j < |s| ==> !IsDash(s[j])
    ensures FirstDashFrom(s, from).Some? ==>
      forall j :: from <= j < FirstDashFrom(s, from).value ==> !IsDash(s[j])
    decreases |s| - from
  {
    if from < |s| && !IsDash(s[from]) {
      FirstDashFromIsFirst(s, from + 1);
    }
  }

  /** FirstDash finds exactly the first dash, and None only when there is no dash. */
  lemma FirstDashIff(s: string, d: Option<nat>)
    ensures FirstDash(s) == d <==>
      match d
      case None => forall j :: 0 <= j < |s| ==> !IsDash(s[j])
      case Some(k) => k < |s| && IsDash(s[k]) && forall j :: 0 <= j < k ==> !IsDash(s[j])
  {
    FirstDashFromIsFirst(s, 0);
  }

  /** Case-insensitive membership in SUPER_TYPES_MTG. */
  predicate IsSuperType(word: string) {
    Upper(word) in SuperTypes
  }

  /** The words that are (`wantSuper`) or are not super-types, in their original order:
      what the loop over the main segment appends to `super_types` or `primary_types`. */
  function Pick(words: seq<string>, wantSuper: bool): (r: seq<string>)
    ensures |r| <= |words|
    ensures forall w <- r :: w in words && IsSuperType(w) == wantSuper
  {
    if words == [] then []
    else
      var last := words[|words| - 1];
      Pick(words[..|words| - 1], wantSuper) + (if IsSuperType(last) == wantSuper then [last] else [])
  }

  /** The regex split `\s*[-—]\s*` with maxsplit 1, each half stripped: the main
      segment, and the subtype segment when there is a dash. */
  function SplitAtDash(s: string): (string, Option<string>) {
    match FirstDash(s)
    case None => (s, None)
    case Some(d) => (Strip(s[..d]), Some(Strip(s[d + 1..])))
  }

  /** `clean_types`. */
  function CleanTypes(typeStr: string): TypeFields {
    var s := Strip(typeStr);
    if s == [] then NoTypes
    else
      var (main, subtypes) := SplitAtDash(s);
      var subtypesList := if subtypes.Some? then SubtypesJoined(Words(subtypes.value)) else "";
      var words := Words(main);
      TypeFields(Join(" ", Pick(words, true)), Join(" ", Pick(words, false)), subtypesList)
  }

  /** A blank type line gives empty type fields, and the subtypes list never holds
      whitespace. */
  lemma CleanTypesBlank(typeStr: string)
    ensures AllSpace(typeStr) ==> CleanTypes(typeStr) == NoTypes
    ensures NoSpace(CleanTypes(typeStr).subtypesList)
  {
  }

  /** `",".join(words)` for whitespace tokens: it holds no whitespace. */
  function SubtypesJoined(words: seq<string>): (r: string)
    requires forall w <- words :: IsWord(w)
    ensures NoSpace(r)
  {
    assert forall w <- words :: NoSpace(w) by {
      forall w | w in words ensures NoSpace(w) {
        assert IsWord(w);
      }
    }
    JoinHasNoSpace(",", words);
    Join(",", words)
  }

  /** The whitespace tokens before the first dash of `s`; all of them when it has no dash. */
  function MainWords(s: string): seq<string> {
    match FirstDash(s)
    case None => Words(s)
    case Some(d) => Words(s[..d])
  }

  /** The whitespace tokens after the first dash of `s`; None when it has no dash. */
  function SubtypeWords(s: string): Option<seq<string>> {
    match FirstDash(s)
    case None => None
    case Some(d) => Some(Words(s[d + 1..]))
  }

  lemma CleanTypesUnfold(typeStr: string)
    requires Strip(typeStr) != []
    ensures var split := SplitAtDash(Strip(typeStr));
      CleanTypes(typeStr) == TypeFields(
        Join(" ", Pick(Words(split.0), true)),
        Join(" ", Pick(Words(split.0), false)),
        if split.1.Some? then Join(",", Words(split.1.value)) else "")
  {
  }

  /** `clean_types` in terms of the tokens of the trimmed type line: the super-type and
      primary-type tokens before its first dash joined by spaces, and the tokens after
      that dash joined by commas. */
  lemma CleanTypesByTokens(typeStr: string)
    ensures var s := Strip(typeStr);
      && CleanTypes(typeStr).superType == Join(" ", Pick(MainWords(s), true))
      && CleanTypes(typeStr).primaryType == Join(" ", Pick(MainWords(s), false))
      && CleanTypes(typeStr).subtypesList ==
           match SubtypeWords(s)
           case None => ""
           case Some(ws) => Join(",", ws)
  {
    var s := Strip(typeStr);
    if s != [] {
      CleanTypesUnfold(typeStr);
      match FirstDash(s)
      case None =>
      case Some(d) =>
        WordsOfStrip(s[..d]);
        WordsOfStrip(s[d + 1..]);
    }
  }

  /** A trimmed type line keeps every character it had inside the outer whitespace. */
  lemma StripKeepsCharacters(typeStr: string)
    ensures forall c <- Strip(typeStr) :: c in typeStr
  {
    var lo, hi := StripBounds(typeStr, Whitespace);
    forall c | c in typeStr[lo..hi] ensures c in typeStr {
      var j :| lo <= j < hi && typeStr[j] == c;
    }
  }

  /** Without a dash there are no subtypes. */
  lemma NoDashNoSubtypes(typeStr: string)
    requires forall c <- typeStr :: !IsDash(c)
    ensures CleanTypes(typeStr).subtypesList == ""
  {
    var s := Strip(typeStr);
    StripKeepsCharacters(typeStr);
    assert forall j :: 0 <= j < |s| ==> s[j] in typeStr;
    FirstDashIff(s, None);
    CleanTypesByTokens(typeStr);
  }

  /** With `d` the first dash of the trimmed type line, the subtypes are the whitespace
      tokens after `d` joined by commas; none of them is empty or holds whitespace. */
  lemma SubtypesAfterFirstDash(typeStr: string, d: nat)
    requires d < |Strip(typeStr)| && IsDash(Strip(typeStr)[d])
    requires forall j :: 0 <= j < d ==> !IsDash(Strip(typeStr)[j])
    ensures CleanTypes(typeStr).subtypesList == Join(",", Words(Strip(typeStr)[d + 1..]))
    ensures forall w <- Words(Strip(typeStr)[d + 1..]) :: w != [] && NoSpace(w)
  {
    FirstDashIff(Strip(typeStr), Some(d));
    CleanTypesByTokens(typeStr);
  }

  lemma {:induction false} PickSplits(words: seq<string>)
    ensures multiset(Pick(words, true)) + multiset(Pick(words, false)) == multiset(words)
    decreases |words|
  {
    if words != [] {
      var init := words[..|words| - 1];
      PickSplits(init);
      assert words == init + [words[|words| - 1]];
    }
  }

  lemma {:induction false} PickKeeps(words: seq<string>, wantSuper: bool, w: string)
    requires w in words && IsSuperType(w) == wantSuper
    ensures w in Pick(words, wantSuper)
    decreases |words|
  {
    var init := words[..|words| - 1];
    assert words == init + [words[|words| - 1]];
    if w != words[|words| - 1] {
      PickKeeps(init, wantSuper, w);
    }
  }

  /** The tokens of the main segment are shared out between Super_Type and Primary_Type:
      each field's tokens are the main tokens of its kind in their original order and
      casing, a token lands in Super_Type exactly when its upper case is a super-type,
      and together the two fields hold every main token once. */
  lemma SuperPrimaryPartition(typeStr: string)
    ensures var main := MainWords(Strip(typeStr));
      && Words(CleanTypes(typeStr).superType) == Pick(main, true)
      && Words(CleanTypes(typeStr).primaryType) == Pick(main, false)
      && (forall w :: w in Words(CleanTypes(typeStr).superType) <==> w in main && IsSuperType(w))
      && (forall w :: w in Words(CleanTypes(typeStr).primaryType) <==> w in main && !IsSuperType(w))
      && multiset(Words(CleanTypes(typeStr).superType)) +
         multiset(Words(CleanTypes(typeStr).primaryType)) == multiset(main)
  {
    var ws := MainWords(Strip(typeStr));
    CleanTypesByTokens(typeStr);
    WordsOfJoin(Pick(ws, true));
    WordsOfJoin(Pick(ws, false));
    PickSplits(ws);
    forall w | w in ws && IsSuperType(w) ensures w in Pick(ws, true) {
      PickKeeps(ws, true, w);
    }
    forall w | w in ws && !IsSuperType(w) ensures w in Pick(ws, false) {
      PickKeeps(ws, false, w);
    }
  }

  /** A type line written as main words, a spaced hyphen or em dash and subtype words,
      the shape of "Legendary Creature - Human Rogue" and "Artifact — Equipment":
      Super_Type and Primary_Type are the main words of each kind joined by spaces, and
      Subtypes_List is the subtype words joined by commas. */
  lemma TypeLineOfWords(main: seq<string>, dash: char, subs: seq<string>)
    requires main != [] && subs != [] && IsDash(dash)
    requires forall w <- main :: IsWord(w) && forall c <- w :: !IsDash(c)
    requires forall w <- subs :: IsWord(w)
    ensures CleanTypes(Join(" ", main) + [' ', dash, ' '] + Join(" ", subs)) ==
      TypeFields(Join(" ", Pick(main, true)), Join(" ", Pick(main, false)), Join(",", subs))
  {
    var t := Join(" ", main) + [' ', dash, ' '] + Join(" ", subs);
    TypeLineEdges(main, dash, subs);
    TypeLineTokens(main, dash, subs);
    CleanTypesByTokens(t);
  }

  lemma TypeLineTokens(main: seq<string>, dash: char, subs: seq<string>)
    requires IsDash(dash)
    requires forall w <- main :: IsWord(w) && forall c <- w :: !IsDash(c)
    requires forall w <- subs :: IsWord(w)
    ensures var t := Join(" ", main) + [' ', dash, ' '] + Join(" ", subs);
      MainWords(t) == main && SubtypeWords(t) == Some(subs)
  {
    var j, k := Join(" ", main), Join(" ", subs);
    var t := j + [' ', dash, ' '] + k;
    var m := |j|;
    DashAfterMain(main, dash, subs);
    FirstDashIff(t, Some(m + 1));
    assert t[m + 2..] == " " + k;
    WordsUnfoldSpace(" " + k);
    assert (" " + k)[1..] == k;
    WordsOfJoin(subs);
    assert t[..m + 1] == j + " ";
    WordsBeforeSpace(j, " ");
    WordsOfJoin(main);
  }

  /** The main words of "Legendary Creature - Human Rogue": Legendary is a super-type
      and Creature is not. */
  lemma LegendaryCreatureWords()
    ensures Pick(["Legendary", "Creature"], true) == ["Legendary"]
    ensures Pick(["Legendary", "Creature"], false) == ["Creature"]
  {
    assert Upper("Legendary") == "LEGENDARY";
    assert Upper("Creature") == "CREATURE";
    assert ["Legendary", "Creature"][..1] == ["Legendary"];
  }

  /** The main word of "Artifact - Equipment": Artifact is not a super-type, so
      Super_Type is empty and Primary_Type is Artifact. */
  lemma ArtifactWords()
    ensures Pick(["Artifact"], true) == []
    ensures Pick(["Artifact"], false) == ["Artifact"]
  {
    assert Upper("Artifact") == "ARTIFACT";
  }

  lemma TypeLineEdges(main: seq<string>, dash: char, subs: seq<string>)
    requires main != [] && subs != []
    requires forall w <- main :: IsWord(w)
    requires forall w <- subs :: IsWord(w)
    ensures var t := Join(" ", main) + [' ', dash, ' '] + Join(" ", subs);
      Strip(t) == t && |Join(" ", main)| + 2 < |t|
  {
    var j, k := Join(" ", main), Join(" ", subs);
    var t := j + [' ', dash, ' '] + k;
    assert IsWord(main[0]) && IsWord(subs[|subs| - 1]);
    assert main[0][0] in main[0];
    assert subs[|subs| - 1][|subs[|subs| - 1]| - 1] in subs[|subs| - 1];
    JoinHead(" ", main);
    JoinLast(" ", subs);
    assert t[0] == j[0] && t[|t| - 1] == k[|k| - 1];
    StripCharsEdges(t, Whitespace);
  }

  lemma DashAfterMain(main: seq<string>, dash: char, subs: seq<string>)
    requires IsDash(dash)
    requires forall w <- main :: forall c <- w :: !IsDash(c)
    ensures var j := Join(" ", main);
      var t := j + [' ', dash, ' '] + Join(" ", subs);
      |j| + 1 < |t| && IsDash(t[|j| + 1]) && forall i :: 0 <= i < |j| + 1 ==> !IsDash(t[i])
  {
    var j := Join(" ", main);
    var t := j + [' ', dash, ' '] + Join(" ", subs);
    JoinChars(" ", main);
    forall i | 0 <= i < |j| + 1 ensures !IsDash(t[i]) {
      if i < |j| {
        assert t[i] == j[i] && j[i] in j;
      }
    }
  }

  /** The loop of `clean_types`: each word of the main segment is appended to the
      super-type list or to the primary-type list. */
  method SortTypeWords(typeParts: seq<string>) returns (superTypes: seq<string>, primaryTypes: seq<string>)
    ensures superTypes == Pick(typeParts, true)
    ensures primaryTypes == Pick(typeParts, false)
  {
    superTypes, primaryTypes := [], [];
    for i := 0 to |typeParts|
      invariant superTypes == Pick(typeParts[..i], true)
      invariant primaryTypes == Pick(typeParts[..i], false)
    {
      assert typeParts[..i + 1][..i] == typeParts[..i];
      if IsSuperType(typeParts[i]) {
        superTypes := superTypes + [typeParts[i]];
      } else {
        primaryTypes := primaryTypes + [typeParts[i]];
      }
    }
    assert typeParts[..|typeParts|] == typeParts;
  }

  /** `clean_types` as the source writes it: the words of the main segment are sorted
      into two lists by a loop. */
  method ParseTypeLine(typeStr: string) returns (r: TypeFields)
    ensures r == CleanTypes(typeStr)
  {
    var s := Strip(typeStr);
    r := NoTypes;
    if s == [] {
      return;
    }
    var split := SplitAtDash(s);
    var primaryLine := split.0;
    if split.1.Some? {
      r := r.(subtypesList := SubtypesJoined(Words(split.1.value)));
    }
    var superTypes, primaryTypes := SortTypeWords(Words(primaryLine));
    r := r.(primaryType := Join(" ", primaryTypes), superType := Join(" ", superTypes));
    CleanTypesUnfold(typeStr);
  }
}
