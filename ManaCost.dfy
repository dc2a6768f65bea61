/**
 * The mana-cost parser `parse_mana_cost`: a left fold over the whitespace
 * tokens of a cost string into the converted mana cost, the generic amount
 * and the hybrid, X and colour flags.
 */
module ManaCost {
  import opened Wrappers
  import opened Text

  /** COLOURS, in the order of the `Is_W` ... `Is_C` columns. */
  datatype Colour = W | U | B | R | G | C

  /** The one-letter name of a colour. */
  function Letter(c: Colour): string {
    match c
    case W => "W"
    case U => "U"
    case B => "B"
    case R => "R"
    case G => "G"
    case C => "C"
  }

  /** `s in COLOURS`: the colour `s` names, if it is one of the six letters. */
  function ColourOf(s: string): (r: Option<Colour>)
    ensures r.Some? ==> Letter(r.value) == s
    ensures forall c: Colour :: s == Letter(c) ==> r == Some(c)
  {
    if s == "W" then Some(W)
    else if s == "U" then Some(U)
    else if s == "B" then Some(B)
    else if s == "R" then Some(R)
    else if s == "G" then Some(G)
    else if s == "C" then Some(C)
    else None
  }

  /** The `row_data` dict: CMC, Is_Hybrid, Generic_Mana, Is_X, and in `colours`
      the colours whose `Is_<c>` flag is set. */
  datatype Mana = Mana(cmc: nat, isHybrid: bool, genericMana: nat, isX: bool, colours: set<Colour>)

  /** The dict before the first token: zeros and every flag false. */
  const NoMana := Mana(0, false, 0, false, {})

  /** The characters `part.strip("sym_")` removes from both ends of a token. */
  const SymChars: set<char> := {'s', 'y', 'm', '_'}

  /** `part.strip("sym_")`: a character-set strip, not a prefix removal. */
  function Remainder(part: string): string {
    StripChars(part, SymChars)
  }

  /** How one token is read, in the order `parse_mana_cost` tries its branches. */
  datatype Symbol =
    | Hybrid(cost: nat, colours: set<Colour>)
    | Pip(colour: Colour)
    | Generic(amount: nat)
    | Variable
    | Ignored

  /** The colours named by the halves of a hybrid symbol. */
  function HalfColours(halves: seq<string>): set<Colour> {
    if halves == [] then {}
    else
      var last := halves[|halves| - 1];
      HalfColours(halves[..|halves| - 1]) + (if ColourOf(last).Some? then {ColourOf(last).value} else {})
  }

  lemma {:induction false} HalfColoursNamed(halves: seq<string>)
    ensures forall c :: c in HalfColours(halves) <==> Letter(c) in halves
    decreases |halves|
  {
    if halves != [] {
      var init := halves[..|halves| - 1];
      HalfColoursNamed(init);
      assert halves == init + [halves[|halves| - 1]];
    }
  }

  lemma UpperKeepsSlash(s: string)
    ensures '/' in Upper(s) <==> '/' in s
  {
    if '/' in s {
      var i :| 0 <= i < |s| && s[i] == '/';
      assert Upper(s)[i] == '/';
    }
    if '/' in Upper(s) {
      var i :| 0 <= i < |s| && Upper(s)[i] == '/';
      assert s[i] == '/';
    }
  }

  /** One token of the cost, by the branches of the loop body in their order. */
  function Classify(part: string): Symbol {
    var raw := Remainder(part);
    var norm := Upper(raw);
    if '/' in norm then
      Hybrid(if StartsWith(part, "sym_2/") then 2 else 1, HalfColours(SplitOn(norm, "/")))
    else if ColourOf(norm).Some? then Pip(ColourOf(norm).value)
    else if IsDigits(raw) then Generic(DigitsValue(raw))
    else if norm == "X" then Variable
    else Ignored
  }

  /** What each branch reads from a token: a slash anywhere in the remainder makes a
      hybrid worth 2 exactly when the raw token starts with `sym_2/`, whose colours are
      the halves that name one; otherwise a colour letter, then a run of ASCII digits,
      then X. */
  lemma ClassifyBranches(part: string)
    ensures Classify(part).Hybrid? <==> '/' in Remainder(part)
    ensures Classify(part).Hybrid? ==>
      Classify(part).cost == (if StartsWith(part, "sym_2/") then 2 else 1)
    ensures Classify(part).Hybrid? ==> forall c ::
      c in Classify(part).colours <==> Letter(c) in SplitOn(Upper(Remainder(part)), "/")
    ensures Classify(part).Pip? <==>
      '/' !in Remainder(part) && ColourOf(Upper(Remainder(part))).Some?
    ensures Classify(part).Pip? ==> Letter(Classify(part).colour) == Upper(Remainder(part))
    ensures Classify(part).Generic? <==>
      '/' !in Remainder(part) && ColourOf(Upper(Remainder(part))).None? && IsDigits(Remainder(part))
    ensures Classify(part).Generic? ==> Classify(part).amount == DigitsValue(Remainder(part))
    ensures Classify(part).Variable? <==> Upper(Remainder(part)) == "X"
    ensures Classify(part).Ignored? <==>
      '/' !in Remainder(part) && ColourOf(Upper(Remainder(part))).None?
      && !IsDigits(Remainder(part)) && Upper(Remainder(part)) != "X"
  {
    var raw := Remainder(part);
    UpperKeepsSlash(raw);
    if '/' in raw {
      HalfColoursNamed(SplitOn(Upper(raw), "/"));
    }
    if Upper(raw) == "X" {
      assert |raw| == 1;
      assert UpperChar(raw[0]) == 'X';
      assert !IsDigit(raw[0]);
    }
  }

  /** What a symbol adds to CMC: 1 or 2 for a hybrid, 1 for a colour, the value of a
      number, nothing for X or an unrecognised token. */
  function CmcOf(sym: Symbol): nat {
    match sym
    case Hybrid(cost, _) => cost
    case Pip(_) => 1
    case Generic(n) => n
    case _ => 0
  }

  /** What a symbol adds to Generic_Mana. */
  function GenericOf(sym: Symbol): nat {
    if sym.Generic? then sym.amount else 0
  }

  /** The colour flags a symbol sets. */
  function ColoursOf(sym: Symbol): set<Colour> {
    match sym
    case Hybrid(_, cs) => cs
    case Pip(c) => {c}
    case _ => {}
  }

  /** One pass of the loop body. Flags are only ever set, never cleared, and the
      counters only grow. */
  function Apply(m: Mana, sym: Symbol): (r: Mana)
    ensures r.cmc == m.cmc + CmcOf(sym) && r.genericMana == m.genericMana + GenericOf(sym)
    ensures r.colours == m.colours + ColoursOf(sym)
    ensures r.isHybrid == (m.isHybrid || sym.Hybrid?)
    ensures r.isX == (m.isX || sym.Variable?)
  {
    match sym
    case Hybrid(cost, cs) => m.(isHybrid := true, cmc := m.cmc + cost, colours := m.colours + cs)
    case Pip(c) => m.(cmc := m.cmc + 1, colours := m.colours + {c})
    case Generic(n) => m.(cmc := m.cmc + n, genericMana := m.genericMana + n)
    case Variable => m.(isX := true)
    case Ignored => m
  }

  /** The fold of the loop over `parts`, starting from `m`. */
  function Tally(m: Mana, parts: seq<string>): Mana
    decreases |parts|
  {
    if parts == [] then m
    else Apply(Tally(m, parts[..|parts| - 1]), Classify(parts[|parts| - 1]))
  }

  /** `parse_mana_cost`: the token reader folded over the whitespace-separated tokens. */
  function ParseManaCost(costStr: string): Mana {
    Tally(NoMana, Words(costStr))
  }

  /** A blank cost leaves every counter at zero and every flag unset. */
  lemma ParseManaCostBlank(costStr: string)
    requires AllSpace(costStr)
    ensures ParseManaCost(costStr) == NoMana
  {
    WordsAfterSpace(costStr, []);
    assert costStr + [] == costStr;
  }


  lemma TallyLast(m: Mana, parts: seq<string>, x: string)
    ensures Tally(m, parts + [x]) == Apply(Tally(m, parts), Classify(x))
  {
    assert (parts + [x])[..|parts|] == parts;
  }

  /** The sum of the CMC contributions of the tokens. */
  function SumCmc(parts: seq<string>): nat
    decreases |parts|
  {
    if parts == [] then 0 else SumCmc(parts[..|parts| - 1]) + CmcOf(Classify(parts[|parts| - 1]))
  }

  /** The sum of the generic amounts of the tokens. */
  function SumGeneric(parts: seq<string>): nat
    decreases |parts|
  {
    if parts == [] then 0 else SumGeneric(parts[..|parts| - 1]) + GenericOf(Classify(parts[|parts| - 1]))
  }

  lemma {:induction false} GenericAtMostCmc(parts: seq<string>)
    ensures SumGeneric(parts) <= SumCmc(parts)
    decreases |parts|
  {
    if parts != [] {
      GenericAtMostCmc(parts[..|parts| - 1]);
    }
  }

  /** CMC is the sum of the tokens' contributions and Generic_Mana the sum of their
      numbers, so Generic_Mana never exceeds CMC. */
  lemma {:induction false} CmcIsSumOfContributions(parts: seq<string>)
    ensures Tally(NoMana, parts).cmc == SumCmc(parts)
    ensures Tally(NoMana, parts).genericMana == SumGeneric(parts)
    ensures Tally(NoMana, parts).genericMana <= Tally(NoMana, parts).cmc
    decreases |parts|
  {
    if parts != [] {
      CmcIsSumOfContributions(parts[..|parts| - 1]);
    }
    GenericAtMostCmc(parts);
  }

  /** `Is_<c>` is set exactly when some token is the colour `c` or a hybrid with a half
      naming `c`. */
  lemma {:induction false} ColourFlagsFromTokens(parts: seq<string>)
    ensures forall c :: c in Tally(NoMana, parts).colours <==>
      exists i :: 0 <= i < |parts| && c in ColoursOf(Classify(parts[i]))
    decreases |parts|
  {
    if parts != [] {
      var n := |parts| - 1;
      var init := parts[..n];
      ColourFlagsFromTokens(init);
      assert parts == init + [parts[n]];
      TallyLast(NoMana, init, parts[n]);
    }
  }

  /** Is_Hybrid is set exactly when some token is a hybrid. */
  lemma {:induction false} HybridFlagFromTokens(parts: seq<string>)
    ensures Tally(NoMana, parts).isHybrid <==> exists i :: 0 <= i < |parts| && Classify(parts[i]).Hybrid?
    decreases |parts|
  {
    if parts != [] {
      var n := |parts| - 1;
      var init := parts[..n];
      HybridFlagFromTokens(init);
      assert parts == init + [parts[n]];
      TallyLast(NoMana, init, parts[n]);
    }
  }

  /** Is_X is set exactly when some token reads as X. */
  lemma {:induction false} XFlagFromTokens(parts: seq<string>)
    ensures Tally(NoMana, parts).isX <==> exists i :: 0 <= i < |parts| && Classify(parts[i]).Variable?
    decreases |parts|
  {
    if parts != [] {
      var n := |parts| - 1;
      var init := parts[..n];
      XFlagFromTokens(init);
      assert parts == init + [parts[n]];
      TallyLast(NoMana, init, parts[n]);
    }
  }

  /** Is_X in terms of the text: some token's remainder upper-cases to X. */
  lemma XIffText(parts: seq<string>)
    ensures Tally(NoMana, parts).isX <==> exists i :: 0 <= i < |parts| && Upper(Remainder(parts[i])) == "X"
  {
    XFlagFromTokens(parts);
    forall i | 0 <= i < |parts| {
      ClassifyBranches(parts[i]);
    }
  }

  /** Is_Hybrid in terms of the text: some token's remainder holds a slash. */
  lemma HybridIffSlash(parts: seq<string>)
    ensures Tally(NoMana, parts).isHybrid <==> exists i :: 0 <= i < |parts| && '/' in Remainder(parts[i])
  {
    HybridFlagFromTokens(parts);
    forall i | 0 <= i < |parts| {
      ClassifyBranches(parts[i]);
    }
  }

  lemma ApplyCommutes(m: Mana, a: Symbol, b: Symbol)
    ensures Apply(Apply(m, a), b) == Apply(Apply(m, b), a)
  {
    assert m.colours + ColoursOf(a) + ColoursOf(b) == m.colours + ColoursOf(b) + ColoursOf(a);
  }

  /** A token can be moved to the end of the sequence without changing the result. */
  lemma {:induction false} TallyMoveLast(m: Mana, p: seq<string>, x: string, q: seq<string>)
    ensures Tally(m, p + [x] + q) == Tally(m, p + q + [x])
    decreases |q|
  {
    if q == [] {
      assert p + [x] + q == p + q + [x];
    } else {
      var q' := q[..|q| - 1];
      var y := q[|q| - 1];
      assert p + [x] + q == (p + [x] + q') + [y];
      assert p + q == (p + q') + [y];
      TallyLast(m, p + [x] + q', y);
      TallyMoveLast(m, p, x, q');
      TallyLast(m, p + q', x);
      ApplyCommutes(Tally(m, p + q'), Classify(x), Classify(y));
      TallyLast(m, p + q', y);
      TallyLast(m, p + q, x);
    }
  }

  lemma RemoveOne(p: seq<string>, x: string, front: seq<string>, back: seq<string>)
    requires multiset(p + [x]) == multiset(front + [x] + back)
    ensures multiset(p) == multiset(front + back)
  {
    assert multiset(p + [x]) == multiset(p) + multiset{x};
    assert multiset(front + [x] + back) == multiset(front + back) + multiset{x};
    forall y ensures multiset(p)[y] == multiset(front + back)[y] {
      assert (multiset(p) + multiset{x})[y] == (multiset(front + back) + multiset{x})[y];
    }
  }

  lemma TallyOrderStep(m: Mana, p: seq<string>, x: string, front: seq<string>, back: seq<string>)
    requires Tally(m, p) == Tally(m, front + back)
    ensures Tally(m, p + [x]) == Tally(m, front + [x] + back)
  {
    TallyMoveLast(m, front, x, back);
    TallyLast(m, p, x);
    TallyLast(m, front + back, x);
  }

  /** The result does not depend on the order of the tokens. */
  lemma {:induction false} TallyOrderIndependent(m: Mana, p: seq<string>, q: seq<string>)
    requires multiset(p) == multiset(q)
    ensures Tally(m, p) == Tally(m, q)
    decreases |p|
  {
    if p == [] {
      assert |q| == |multiset(q)| == 0;
    } else {
      var n := |p| - 1;
      var x, p' := p[n], p[..n];
      assert p == p' + [x];
      assert x in multiset(q);
      var k :| 0 <= k < |q| && q[k] == x;
      var front, back := q[..k], q[k + 1..];
      assert q == front + [x] + back;
      RemoveOne(p', x, front, back);
      TallyOrderIndependent(m, p', front + back);
      TallyOrderStep(m, p', x, front, back);
    }
  }

  /** Costs whose tokens are the same up to order parse to the same result. */
  lemma ParseIgnoresTokenOrder(a: string, b: string)
    requires multiset(Words(a)) == multiset(Words(b))
    ensures ParseManaCost(a) == ParseManaCost(b)
  {
    TallyOrderIndependent(NoMana, Words(a), Words(b));
  }

  /** The inner loop over the halves of a hybrid symbol: each half that names a colour
      adds it to the colours seen so far. */
  method ReadHalves(colours: set<Colour>, hybridSymbols: seq<string>) returns (r: set<Colour>)
    ensures r == colours + HalfColours(hybridSymbols)
  {
    r := colours;
    for j := 0 to |hybridSymbols|
      invariant r == colours + HalfColours(hybridSymbols[..j])
    {
      assert hybridSymbols[..j + 1][..j] == hybridSymbols[..j];
      var symbol := ColourOf(hybridSymbols[j]);
      if symbol.Some? {
        r := r + {symbol.value};
      }
    }
    assert hybridSymbols[..|hybridSymbols|] == hybridSymbols;
  }

  /** The body of the loop of `parse_mana_cost` for one token: the branches in their
      order, updating the counters and flags of `rowData`. */
  method ReadToken(rowData: Mana, part: string) returns (r: Mana)
    ensures r == Apply(rowData, Classify(part))
  {
    r := rowData;
    var symbolValueRaw := Remainder(part);
    var symbolValueNormalised := Upper(symbolValueRaw);
    if '/' in symbolValueNormalised {
      r := r.(isHybrid := true);
      if StartsWith(part, "sym_2/") {
        r := r.(cmc := r.cmc + 2);
      } else {
        r := r.(cmc := r.cmc + 1);
      }
      var hybridSymbols := SplitOn(symbolValueNormalised, "/");
      var colours := ReadHalves(r.colours, hybridSymbols);
      r := r.(colours := colours);
    } else if ColourOf(symbolValueNormalised).Some? {
      r := r.(cmc := r.cmc + 1);
      r := r.(colours := r.colours + {ColourOf(symbolValueNormalised).value});
    } else if IsDigits(symbolValueRaw) {
      var genericValue := DigitsValue(symbolValueRaw);
      r := r.(cmc := r.cmc + genericValue);
      r := r.(genericMana := r.genericMana + genericValue);
    } else if symbolValueNormalised == "X" {
      r := r.(isX := true);
    }
  }

  /** `parse_mana_cost` as the source writes it: a loop over the tokens that updates the
      counters and sets the flags in place. */
  method ParseManaCostLoop(costStr: string) returns (rowData: Mana)
    ensures rowData == ParseManaCost(costStr)
  {
    rowData := NoMana;
    var costParts := Words(costStr);
    for i := 0 to |costParts|
      invariant rowData == Tally(NoMana, costParts[..i])
    {
      rowData := ReadToken(rowData, costParts[i]);
      assert costParts[..i + 1] == costParts[..i] + [costParts[i]];
      TallyLast(NoMana, costParts[..i], costParts[i]);
    }
    assert costParts[..|costParts|] == costParts;
  }

  /** The cost string is folded token by token: for whitespace-free tokens joined by
      single spaces, the result is the fold over exactly those tokens. */
  lemma ParseJoinedTokens(parts: seq<string>)
    requires forall w <- parts :: IsWord(w)
    ensures ParseManaCost(Join(" ", parts)) == Tally(NoMana, parts)
  {
    WordsOfJoin(parts);
  }

  lemma TallyTwo(a: string, b: string)
    ensures Tally(NoMana, [a, b]) == Apply(Apply(NoMana, Classify(a)), Classify(b))
  {
    assert [] + [a] == [a] && [a] + [b] == [a, b];
    TallyLast(NoMana, [], a);
    TallyLast(NoMana, [a], b);
  }

  lemma TallyThree(a: string, b: string, c: string)
    ensures Tally(NoMana, [a, b, c]) == Apply(Apply(Apply(NoMana, Classify(a)), Classify(b)), Classify(c))
  {
    assert [a, b] + [c] == [a, b, c];
    TallyTwo(a, b);
    TallyLast(NoMana, [a, b], c);
  }

  /** `"sym_" + c` strips to `c` when `c` is not one of the stripped characters. */
  lemma RemainderOfSymbol(c: char)
    requires c !in SymChars
    ensures Remainder("sym_" + [c]) == [c]
  {
    var s := "sym_" + [c];
    assert TrimStart([c], SymChars) == [c];
    assert s[3..] == "_" + [c] && s[3..][1..] == [c];
    assert TrimStart(s[3..], SymChars) == [c];
    assert s[2..] == "m_" + [c] && s[2..][1..] == s[3..];
    assert TrimStart(s[2..], SymChars) == [c];
    assert s[1..] == "ym_" + [c] && s[1..][1..] == s[2..];
    assert TrimStart(s[1..], SymChars) == [c];
    assert TrimStart(s, SymChars) == [c];
    assert TrimEnd([c], SymChars) == [c];
  }

  /** A one-digit symbol such as `sym_3` is generic mana of that value. */
  lemma ClassifyNumberToken(d: char)
    requires IsDigit(d)
    ensures Classify("sym_" + [d]) == Generic(d as int - '0' as int)
  {
    RemainderOfSymbol(d);
    assert Upper([d]) == [d];
    assert ColourOf([d]) == None;
    assert [d][..0] == [];
    assert DigitsValue([d]) == d as int - '0' as int;
  }

  /** A colour symbol such as `sym_W` is one mana of that colour. */
  lemma ClassifyColourToken(c: Colour)
    ensures Classify("sym_" + Letter(c)) == Pip(c)
  {
    RemainderOfSymbol(Letter(c)[0]);
    assert Upper(Letter(c)) == Letter(c);
  }

  /** `sym_X` and `sym_x` are the variable cost. */
  lemma ClassifyVariableToken(x: char)
    requires UpperChar(x) == 'X'
    ensures Classify("sym_" + [x]) == Variable
  {
    assert x !in SymChars;
    RemainderOfSymbol(x);
    assert Upper([x]) == "X";
    assert !IsDigit(x);
  }

  lemma RemainderOfTwoHybrid(x: char)
    requires x !in SymChars
    ensures Remainder("sym_2/" + [x]) == "2/" + [x]
  {
    var s := "sym_2/" + [x];
    var raw := "2/" + [x];
    assert s[4..] == raw;
    assert TrimStart(s[4..], SymChars) == raw;
    assert s[3..][1..] == s[4..];
    assert TrimStart(s[3..], SymChars) == raw;
    assert s[2..][1..] == s[3..];
    assert TrimStart(s[2..], SymChars) == raw;
    assert s[1..][1..] == s[2..];
    assert TrimStart(s[1..], SymChars) == raw;
    assert TrimStart(s, SymChars) == raw;
    assert TrimEnd(raw, SymChars) == raw;
  }

  lemma UpperOfTwoHybrid(x: char, c: Colour)
    requires UpperChar(x) == Letter(c)[0]
    ensures Upper("2/" + [x]) == "2/" + Letter(c)
    ensures '/' in Upper("2/" + [x])
  {
    assert Upper("2/" + [x])[1] == '/';
  }

  lemma HalvesOfTwoHybrid(c: Colour)
    ensures SplitOn("2/" + Letter(c), "/") == ["2", Letter(c)]
  {
    var norm := "2/" + Letter(c);
    assert OccursAt(norm, "/", 1);
    assert norm[0..1][0] == '2';
    assert FindFrom(norm, "/", 0) == Some(1);
    SplitOnStep(norm, "/", 1);
    assert norm[..1] == "2";
    assert norm[2..] == Letter(c);
    FindNoneIffAbsent(Letter(c), "/");
    assert Letter(c)[0..1] == Letter(c) != "/";
    assert SplitOn(Letter(c), "/") == [Letter(c)];
  }

  /** A two-generic hybrid such as `sym_2/u` costs 2 and sets the flag of its colour,
      whatever the case of the colour letter. */
  lemma ClassifyTwoHybrid(x: char, c: Colour)
    requires x !in SymChars && UpperChar(x) == Letter(c)[0]
    ensures Classify("sym_2/" + [x]) == Hybrid(2, {c})
  {
    var s := "sym_2/" + [x];
    RemainderOfTwoHybrid(x);
    UpperOfTwoHybrid(x, c);
    assert StartsWith(s, "sym_2/");
    HalvesOfTwoHybrid(c);
    ClassifyBranches(s);
    var sym := Classify(s);
    assert forall c' :: c' in sym.colours <==> Letter(c') in ["2", Letter(c)];
    assert forall c' :: Letter(c') in ["2", Letter(c)] <==> c' == c;
  }

  /** A generic digit followed by one colour: `sym_2 sym_B` gives CMC 3 and
      Generic_Mana 2, `sym_1 sym_W` gives CMC 2 and Generic_Mana 1. */
  lemma NumberThenColour(d: char, c: Colour)
    requires IsDigit(d)
    ensures var n := d as int - '0' as int;
      Tally(NoMana, ["sym_" + [d], "sym_" + Letter(c)]) == Mana(n + 1, false, n, false, {c})
  {
    ClassifyNumberToken(d);
    ClassifyColourToken(c);
    TallyTwo("sym_" + [d], "sym_" + Letter(c));
  }

  /** A generic digit followed by two colours: `sym_3 sym_W sym_B` gives CMC 5,
      Generic_Mana 3 and the W and B flags. */
  lemma NumberThenTwoColours(d: char, c1: Colour, c2: Colour)
    requires IsDigit(d)
    ensures var n := d as int - '0' as int;
      Tally(NoMana, ["sym_" + [d], "sym_" + Letter(c1), "sym_" + Letter(c2)]) ==
      Mana(n + 2, false, n, false, {c1, c2})
  {
    ClassifyNumberToken(d);
    ClassifyColourToken(c1);
    ClassifyColourToken(c2);
    TallyThree("sym_" + [d], "sym_" + Letter(c1), "sym_" + Letter(c2));
  }

  /** The tokens of the sample costs, with the values the cleaner's tests expect. */
  lemma SampleCosts()
    ensures Tally(NoMana, ["sym_3", "sym_W", "sym_B"]) == Mana(5, false, 3, false, {W, B})
    ensures Tally(NoMana, ["sym_2", "sym_B"]) == Mana(3, false, 2, false, {B})
    ensures Tally(NoMana, ["sym_1", "sym_W"]) == Mana(2, false, 1, false, {W})
  {
    NumberThenTwoColours('3', W, B);
    assert "sym_" + ['3'] == "sym_3" && "sym_" + Letter(W) == "sym_W" && "sym_" + Letter(B) == "sym_B";
    NumberThenColour('2', B);
    assert "sym_" + ['2'] == "sym_2";
    NumberThenColour('1', W);
    assert "sym_" + ['1'] == "sym_1";
  }

  /** `sym_2/u sym_x`: a two-generic hybrid in lower case and a variable cost give CMC 2,
      Is_Hybrid, Is_X and the U flag, with no generic mana. */
  lemma HybridAndVariableCost()
    ensures Tally(NoMana, ["sym_2/u", "sym_x"]) == Mana(2, true, 0, true, {U})
  {
    ClassifyTwoHybrid('u', U);
    assert "sym_2/" + ['u'] == "sym_2/u";
    ClassifyVariableToken('x');
    assert "sym_" + ['x'] == "sym_x";
    TallyTwo("sym_2/u", "sym_x");
  }
}
