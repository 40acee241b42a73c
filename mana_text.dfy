/** The mana-text renderer: `replaceManaSymbolsWithIcons` splits a rules or cost
    string with the global regular expression `/\{[^}]+\}|[^\{\}]+/g` and turns each
    part whose trimmed form names a known symbol into an icon, every other part into
    literal text. The scan the regular-expression engine performs is modelled as a
    trace of pieces: the matches it reports and the characters it steps over. */
module ManaText {
  import opened Wrappers

  predicate IsBrace(c: char)
  {
    c == '{' || c == '}'
  }

  /** `\{[^}]+\}`: an opening brace, at least one character that is not a closing
      brace (an opening brace is allowed), and a closing brace. */
  predicate IsBraceToken(p: string)
  {
    && |p| >= 3
    && p[0] == '{'
    && p[|p| - 1] == '}'
    && forall i :: 1 <= i < |p| - 1 ==> p[i] != '}'
  }

  /** `[^\{\}]+`: a non-empty run of characters without braces. */
  predicate IsTextRun(p: string)
  {
    |p| > 0 && forall i :: 0 <= i < |p| ==> !IsBrace(p[i])
  }

  /** One step of the regular-expression engine: a reported match, or a character
      at which neither alternative matches and which the engine steps over. */
  datatype Piece = Match(part: string) | Skipped(c: char)

  predicate WellFormedPiece(q: Piece)
  {
    match q
    case Match(p) => IsBraceToken(p) || IsTextRun(p)
    case Skipped(c) => IsBrace(c)
  }

  /** Index of the first closing brace in `s`, or `|s|` when there is none. */
  function CloseIndex(s: string): (k: nat)
    ensures k <= |s|
    ensures k < |s| ==> s[k] == '}'
    ensures forall i :: 0 <= i < k ==> s[i] != '}'
  {
    if s == [] then 0
    else if s[0] == '}' then 0
    else 1 + CloseIndex(s[1..])
  }

  /** Length of the longest brace-free prefix of `s`. */
  function RunLength(s: string): (n: nat)
    ensures n <= |s|
    ensures n < |s| ==> IsBrace(s[n])
    ensures forall i :: 0 <= i < n ==> !IsBrace(s[i])
  {
    if s == [] || IsBrace(s[0]) then 0
    else 1 + RunLength(s[1..])
  }

  /** The characters one piece covers. */
  function PieceText(q: Piece): string
  {
    match q
    case Match(p) => p
    case Skipped(c) => [c]
  }

  /** The characters a trace covers, matched or stepped over, in order. */
  function Flatten(qs: seq<Piece>): string
  {
    if qs == [] then [] else PieceText(qs[0]) + Flatten(qs[1..])
  }

  /** A piece in front of a trace covers its own text, then the trace's. */
  lemma Prepend(q: Piece, qs: seq<Piece>)
    ensures Flatten([q] + qs) == PieceText(q) + Flatten(qs)
  {
    assert ([q] + qs)[1..] == qs;
  }

  /** The global scan, left to right: at each position try the brace-token
      alternative, then the text-run alternative, otherwise step over one character.
      Only a stray `}`, a `{` with no closing brace after it, or the `{` of `{}`
      is ever stepped over. */
  function Scan(s: string): (qs: seq<Piece>)
    ensures Flatten(qs) == s
    decreases |s|
  {
    if s == [] then []
    else
      var q := FrontPiece(s);
      var n := |PieceText(q)|;
      var rest := Scan(s[n..]);
      Prepend(q, rest);
      assert s == s[..n] + s[n..];
      [q] + rest
  }

  /** Every piece of the scan is a brace token, a text run, or a stepped-over brace. */
  lemma {:induction false} ScanWellFormed(s: string)
    ensures forall i :: 0 <= i < |Scan(s)| ==> WellFormedPiece(Scan(s)[i])
    decreases |s|
  {
    if s != [] {
      var q := FrontPiece(s);
      var rest := Scan(s[|PieceText(q)|..]);
      ScanWellFormed(s[|PieceText(q)|..]);
      assert Scan(s) == [q] + rest;
    }
  }

  /** The piece the scan takes at the front of a non-empty string: a brace token
      when a `{` is closed later on with something in between, the stepped-over
      brace otherwise, and else the longest brace-free run. It is well formed,
      non-empty, and a prefix of the string. */
  function FrontPiece(s: string): (q: Piece)
    requires s != []
    ensures WellFormedPiece(q)
    ensures 0 < |PieceText(q)| <= |s| && PieceText(q) == s[..|PieceText(q)|]
  {
    if s[0] == '{' && 1 <= CloseIndex(s[1..]) < |s| - 1 then
      BraceTokenStep(s);
      Match(s[..CloseIndex(s[1..]) + 2])
    else if IsBrace(s[0]) then
      assert [s[0]] == s[..1];
      Skipped(s[0])
    else
      TextRunStep(s);
      Match(s[..RunLength(s)])
  }

  lemma BraceTokenStep(s: string)
    requires s != [] && s[0] == '{' && 1 <= CloseIndex(s[1..]) < |s| - 1
    ensures IsBraceToken(s[..CloseIndex(s[1..]) + 2])
  {
    var k := CloseIndex(s[1..]);
    var p := s[..k + 2];
    assert forall i :: 1 <= i < |p| - 1 ==> p[i] == s[1..][i - 1];
  }

  lemma TextRunStep(s: string)
    requires s != [] && !IsBrace(s[0])
    ensures IsTextRun(s[..RunLength(s)])
  {
  }

  /** The parts the scan reports, which is what `text.match(regex) || []` returns. */
  function Matches(qs: seq<Piece>): seq<string>
  {
    if qs == [] then []
    else if qs[0].Match? then [qs[0].part] + Matches(qs[1..])
    else Matches(qs[1..])
  }

  function Tokenize(s: string): seq<string>
  {
    Matches(Scan(s))
  }

  function Concat(parts: seq<string>): string
  {
    if parts == [] then [] else parts[0] + Concat(parts[1..])
  }

  function SkipCount(qs: seq<Piece>): nat
  {
    if qs == [] then 0
    else (if qs[0].Skipped? then 1 else 0) + SkipCount(qs[1..])
  }

  lemma {:induction false} MatchesWellFormed(qs: seq<Piece>)
    requires forall i :: 0 <= i < |qs| ==> WellFormedPiece(qs[i])
    ensures forall i :: 0 <= i < |Matches(qs)| ==>
              IsBraceToken(Matches(qs)[i]) || IsTextRun(Matches(qs)[i])
  {
    if qs != [] {
      MatchesWellFormed(qs[1..]);
    }
  }

  /** Every part the tokenizer reports is a brace token or a brace-free text run. */
  lemma TokenizePartsWellFormed(s: string)
    ensures forall i :: 0 <= i < |Tokenize(s)| ==>
              IsBraceToken(Tokenize(s)[i]) || IsTextRun(Tokenize(s)[i])
  {
    ScanWellFormed(s);
    MatchesWellFormed(Scan(s));
  }

  lemma {:induction false} MatchesLength(qs: seq<Piece>)
    ensures |Concat(Matches(qs))| + SkipCount(qs) == |Flatten(qs)|
  {
    if qs != [] {
      MatchesLength(qs[1..]);
    }
  }

  lemma {:induction false} MatchesWithoutSkips(qs: seq<Piece>)
    requires SkipCount(qs) == 0
    ensures Concat(Matches(qs)) == Flatten(qs)
  {
    if qs != [] {
      MatchesWithoutSkips(qs[1..]);
    }
  }

  /** The parts concatenate back to the input exactly when the scan stepped over
      nothing; otherwise exactly the stepped-over characters, each a brace, are lost. */
  lemma TokenizeLosesOnlySkipped(s: string)
    ensures |Concat(Tokenize(s))| + SkipCount(Scan(s)) == |s|
    ensures Concat(Tokenize(s)) == s <==> SkipCount(Scan(s)) == 0
    ensures forall i :: 0 <= i < |Scan(s)| && Scan(s)[i].Skipped? ==>
              Stray(Scan(s)[i].c, Flatten(Scan(s)[i + 1..]))
  {
    ScanIsEngineTrace(s);
    EngineTraceSkipsStray(Scan(s));
    MatchesLength(Scan(s));
    if SkipCount(Scan(s)) == 0 {
      MatchesWithoutSkips(Scan(s));
    }
  }

  /** Input without braces is reported as one text run, or as nothing when empty. */
  lemma BraceFreeIsOneRun(s: string)
    requires forall i :: 0 <= i < |s| ==> !IsBrace(s[i])
    ensures Tokenize(s) == if s == [] then [] else [s]
  {
    if s != [] {
      assert RunLength(s) == |s|;
      assert s[..|s|] == s;
      assert s[|s|..] == [];
      assert Scan(s) == [Match(s)];
      assert Matches([Match(s)]) == [s] + Matches([]);
    }
  }

  /** A sequence of parts that the tokenizer could have produced from their
      concatenation: each a brace token or a text run, and no two text runs adjacent
      (the engine would have reported them as one). */
  predicate Tokenizable(parts: seq<string>)
  {
    && (forall i :: 0 <= i < |parts| ==> IsBraceToken(parts[i]) || IsTextRun(parts[i]))
    && (forall i :: 0 <= i < |parts| - 1 ==> !(IsTextRun(parts[i]) && IsTextRun(parts[i + 1])))
  }

  lemma {:induction false} ConcatStartsWith(parts: seq<string>)
    requires Tokenizable(parts) && parts != []
    ensures |Concat(parts)| > 0
    ensures IsBraceToken(parts[0]) ==> Concat(parts)[0] == '{'
    ensures IsTextRun(parts[0]) ==> !IsBrace(Concat(parts)[0])
  {
  }

  /** Each part reported as a match, nothing stepped over. */
  function AllMatched(parts: seq<string>): seq<Piece>
  {
    if parts == [] then [] else [Match(parts[0])] + AllMatched(parts[1..])
  }

  lemma ScanBraceTokenFirst(p: string, t: string)
    requires IsBraceToken(p)
    ensures Scan(p + t) == [Match(p)] + Scan(t)
  {
    var s := p + t;
    assert s[1..] == p[1..] + t;
    var k := CloseIndex(s[1..]);
    assert forall i :: 0 <= i < |p| - 1 ==> s[1..][i] == p[i + 1];
    assert s[1..][|p| - 2] == '}';
    assert k == |p| - 2;
    assert s[..k + 2] == p;
    assert s[k + 2..] == t;
  }

  lemma ScanTextRunFirst(p: string, t: string)
    requires IsTextRun(p)
    requires t == [] || IsBrace(t[0])
    ensures Scan(p + t) == [Match(p)] + Scan(t)
  {
    var s := p + t;
    assert !IsBrace(s[0]);
    var n := RunLength(s);
    assert |p| < |s| ==> s[|p|] == t[0];
    assert n == |p|;
    assert s[..n] == p;
    assert s[n..] == t;
  }

  /** Round trip: tokenizing the concatenation of tokenizable parts gives back the
      same parts, and the scan steps over nothing. */
  lemma {:induction false} TokenizeConcat(parts: seq<string>)
    requires Tokenizable(parts)
    ensures Scan(Concat(parts)) == AllMatched(parts)
    ensures Tokenize(Concat(parts)) == parts
  {
    if parts != [] {
      var p, rest := parts[0], parts[1..];
      assert Tokenizable(rest);
      TokenizeConcat(rest);
      if IsBraceToken(p) {
        ScanBraceTokenFirst(p, Concat(rest));
      } else {
        if rest != [] {
          assert !IsTextRun(rest[0]);
          ConcatStartsWith(rest);
        }
        ScanTextRunFirst(p, Concat(rest));
      }
    }
    MatchesOfAllMatched(parts);
  }

  lemma {:induction false} MatchesOfAllMatched(parts: seq<string>)
    ensures Matches(AllMatched(parts)) == parts
  {
    if parts != [] {
      MatchesOfAllMatched(parts[1..]);
    }
  }

  /** A brace the engine steps over in front of the rest `t`: a closing brace, or an
      opening brace that is not closed later on with something in between (`t` is
      empty, starts with `}`, or holds no `}` at all). */
  predicate Stray(c: char, t: string)
  {
    c == '}' || (c == '{' && (t == [] || t[0] == '}' || '}' !in t))
  }

  /** Piece `q` is the one the engine takes in front of the rest `t`: a brace token
      anywhere, a text run only when it cannot be extended (the rest is empty or
      starts with a brace), and a skipped character only when it is a stray brace. */
  predicate FitsBefore(q: Piece, t: string)
  {
    match q
    case Match(p) => IsBraceToken(p) || (IsTextRun(p) && (t == [] || IsBrace(t[0])))
    case Skipped(c) => Stray(c, t)
  }

  /** A trace the engine could report: every piece fits before the text of the
      pieces after it. */
  predicate EngineTrace(qs: seq<Piece>)
    decreases |qs|
  {
    qs == [] || (FitsBefore(qs[0], Flatten(qs[1..])) && EngineTrace(qs[1..]))
  }

  /** The piece taken at the front of a string fits before what follows it. */
  lemma FrontPieceFits(s: string)
    requires s != []
    ensures FitsBefore(FrontPiece(s), s[|PieceText(FrontPiece(s))|..])
  {
    var q := FrontPiece(s);
    var t := s[|PieceText(q)|..];
    if q.Skipped? && q.c == '{' {
      assert t == s[1..];
      var k := CloseIndex(t);
      if k == |t| {
        assert forall i :: 0 <= i < |t| ==> t[i] != '}';
      }
    }
  }

  /** The scan of any string is an engine trace: in particular every character it
      steps over is a stray brace. */
  lemma {:induction false} ScanIsEngineTrace(s: string)
    ensures EngineTrace(Scan(s))
    decreases |s|
  {
    if s != [] {
      var q := FrontPiece(s);
      var t := s[|PieceText(q)|..];
      FrontPieceFits(s);
      ScanIsEngineTrace(t);
      assert Scan(s) == [q] + Scan(t);
      assert Scan(s)[1..] == Scan(t);
    }
  }

  lemma ScanSkippedFirst(c: char, t: string)
    requires IsBrace(c) && Stray(c, t)
    ensures Scan([c] + t) == [Skipped(c)] + Scan(t)
  {
    var s := [c] + t;
    assert s[1..] == t;
    assert FrontPiece(s) == Skipped(c);
  }

  /** In an engine trace every stepped-over character is a stray brace with respect
      to the text after it. */
  lemma {:induction false} EngineTraceSkipsStray(qs: seq<Piece>)
    requires EngineTrace(qs)
    ensures forall i :: 0 <= i < |qs| && qs[i].Skipped? ==> Stray(qs[i].c, Flatten(qs[i + 1..]))
    decreases |qs|
  {
    if qs != [] {
      EngineTraceSkipsStray(qs[1..]);
      forall i | 1 <= i < |qs|
        ensures qs[i + 1..] == qs[1..][i..] && qs[i] == qs[1..][i - 1]
      {
      }
    }
  }

  /** A piece that fits before `t` is exactly what the scan takes in front of it. */
  lemma ScanFitsFirst(q: Piece, t: string)
    requires WellFormedPiece(q) && FitsBefore(q, t)
    ensures Scan(PieceText(q) + t) == [q] + Scan(t)
  {
    match q
    case Match(p) =>
      if IsBraceToken(p) {
        ScanBraceTokenFirst(p, t);
      } else {
        ScanTextRunFirst(p, t);
      }
    case Skipped(c) =>
      ScanSkippedFirst(c, t);
  }

  /** The scan is characterised by its traces: scanning the text of a well-formed
      trace gives the trace back exactly when it is an engine trace. So the
      engine keeps text runs maximal and steps over nothing but stray braces. */
  lemma {:induction false} ScanOfEngineTrace(qs: seq<Piece>)
    requires forall i :: 0 <= i < |qs| ==> WellFormedPiece(qs[i])
    ensures Scan(Flatten(qs)) == qs <==> EngineTrace(qs)
    decreases |qs|
  {
    if EngineTrace(qs) && qs != [] {
      var q, rest := qs[0], qs[1..];
      assert forall i :: 0 <= i < |rest| ==> WellFormedPiece(rest[i]) by {
        forall i | 0 <= i < |rest| ensures WellFormedPiece(rest[i]) {
          assert rest[i] == qs[i + 1];
        }
      }
      ScanOfEngineTrace(rest);
      ScanFitsFirst(q, Flatten(rest));
      assert qs == [q] + rest;
    }
    if Scan(Flatten(qs)) == qs {
      ScanIsEngineTrace(Flatten(qs));
    }
  }

  /** Every key a brace token, every icon address non-empty. */
  predicate WellFormedTable(m: map<string, string>)
  {
    forall k :: k in m ==> IsBraceToken(k) && m[k] != ""
  }

  lemma WellFormedUnion(a: map<string, string>, b: map<string, string>)
    requires WellFormedTable(a) && WellFormedTable(b)
    ensures WellFormedTable(a + b)
  {
  }

  /** The symbol table's entries for coloured and colourless mana and the tap symbol. */
  const ColourSymbols: map<string, string> :=
    map[
      "{W}" := "https://svgs.scryfall.io/card-symbols/W.svg",
      "{U}" := "https://svgs.scryfall.io/card-symbols/U.svg",
      "{B}" := "https://svgs.scryfall.io/card-symbols/B.svg",
      "{R}" := "https://svgs.scryfall.io/card-symbols/R.svg",
      "{G}" := "https://svgs.scryfall.io/card-symbols/G.svg",
      "{C}" := "https://svgs.scryfall.io/card-symbols/C.svg",
      "{T}" := "https://svgs.scryfall.io/card-symbols/T.svg"
    ]

  /** The symbol table's entries for generic costs 0 to 9. */
  const LowNumberSymbols: map<string, string> :=
    map[
      "{0}" := "https://svgs.scryfall.io/card-symbols/0.svg",
      "{1}" := "https://svgs.scryfall.io/card-symbols/1.svg",
      "{2}" := "https://svgs.scryfall.io/card-symbols/2.svg",
      "{3}" := "https://svgs.scryfall.io/card-symbols/3.svg",
      "{4}" := "https://svgs.scryfall.io/card-symbols/4.svg",
      "{5}" := "https://svgs.scryfall.io/card-symbols/5.svg",
      "{6}" := "https://svgs.scryfall.io/card-symbols/6.svg",
      "{7}" := "https://svgs.scryfall.io/card-symbols/7.svg",
      "{8}" := "https://svgs.scryfall.io/card-symbols/8.svg",
      "{9}" := "https://svgs.scryfall.io/card-symbols/9.svg"
    ]

  /** The symbol table's entries for generic costs 10 to 20. */
  const HighNumberSymbols: map<string, string> :=
    map[
      "{10}" := "https://svgs.scryfall.io/card-symbols/10.svg",
      "{11}" := "https://svgs.scryfall.io/card-symbols/11.svg",
      "{12}" := "https://svgs.scryfall.io/card-symbols/12.svg",
      "{13}" := "https://svgs.scryfall.io/card-symbols/13.svg",
      "{14}" := "https://svgs.scryfall.io/card-symbols/14.svg",
      "{15}" := "https://svgs.scryfall.io/card-symbols/15.svg",
      "{16}" := "https://svgs.scryfall.io/card-symbols/16.svg",
      "{17}" := "https://svgs.scryfall.io/card-symbols/17.svg",
      "{18}" := "https://svgs.scryfall.io/card-symbols/18.svg",
      "{19}" := "https://svgs.scryfall.io/card-symbols/19.svg",
      "{20}" := "https://svgs.scryfall.io/card-symbols/20.svg"
    ]

  /** The symbol table's entries for variable costs, snow and the other single-letter symbols. */
  const VariableSymbols: map<string, string> :=
    map[
      "{X}" := "https://svgs.scryfall.io/card-symbols/X.svg",
      "{Y}" := "https://svgs.scryfall.io/card-symbols/Y.svg",
      "{Z}" := "https://svgs.scryfall.io/card-symbols/Z.svg",
      "{S}" := "https://svgs.scryfall.io/card-symbols/S.svg",
      "{Q}" := "https://svgs.scryfall.io/card-symbols/Q.svg",
      "{E}" := "https://svgs.scryfall.io/card-symbols/E.svg"
    ]

  /** The symbol table's entries for two-colour hybrid mana. */
  const HybridSymbols: map<string, string> :=
    map[
      "{W/U}" := "https://svgs.scryfall.io/card-symbols/WU.svg",
      "{W/B}" := "https://svgs.scryfall.io/card-symbols/WB.svg",
      "{U/B}" := "https://svgs.scryfall.io/card-symbols/UB.svg",
      "{U/R}" := "https://svgs.scryfall.io/card-symbols/UR.svg",
      "{B/R}" := "https://svgs.scryfall.io/card-symbols/BR.svg",
      "{B/G}" := "https://svgs.scryfall.io/card-symbols/BG.svg",
      "{R/G}" := "https://svgs.scryfall.io/card-symbols/RG.svg",
      "{R/W}" := "https://svgs.scryfall.io/card-symbols/RW.svg",
      "{G/W}" := "https://svgs.scryfall.io/card-symbols/GW.svg",
      "{G/U}" := "https://svgs.scryfall.io/card-symbols/GU.svg"
    ]

  /** The symbol table's entries for two-generic-or-one-colour hybrid mana. */
  const MonoHybridSymbols: map<string, string> :=
    map[
      "{2/W}" := "https://svgs.scryfall.io/card-symbols/2W.svg",
      "{2/U}" := "https://svgs.scryfall.io/card-symbols/2U.svg",
      "{2/B}" := "https://svgs.scryfall.io/card-symbols/2B.svg",
      "{2/R}" := "https://svgs.scryfall.io/card-symbols/2R.svg",
      "{2/G}" := "https://svgs.scryfall.io/card-symbols/2G.svg"
    ]

  /** The symbol table's entries for Phyrexian mana and half-white. */
  const PhyrexianSymbols: map<string, string> :=
    map[
      "{W/P}" := "https://svgs.scryfall.io/card-symbols/WP.svg",
      "{U/P}" := "https://svgs.scryfall.io/card-symbols/UP.svg",
      "{B/P}" := "https://svgs.scryfall.io/card-symbols/BP.svg",
      "{R/P}" := "https://svgs.scryfall.io/card-symbols/RP.svg",
      "{G/P}" := "https://svgs.scryfall.io/card-symbols/GP.svg",
      "{P}" := "https://svgs.scryfall.io/card-symbols/P.svg",
      "{HW}" := "https://svgs.scryfall.io/card-symbols/HW.svg"
    ]

  /** The fixed symbol table, symbol key to icon address, assembled from its groups
      (the groups share no key). */
  const ManaSymbols: map<string, string> :=
    ColourSymbols + LowNumberSymbols + HighNumberSymbols + VariableSymbols + HybridSymbols + MonoHybridSymbols + PhyrexianSymbols

  /** Every key of the table is itself a brace token, and every icon address is
      non-empty (so the truthiness test on the looked-up address is a membership test). */
  lemma ManaSymbolKeysAreBraceTokens()
    ensures WellFormedTable(ManaSymbols)
  {
    ColourSymbolsWellFormed();
    LowNumberSymbolsWellFormed();
    WellFormedUnion(ColourSymbols, LowNumberSymbols);
    HighNumberSymbolsWellFormed();
    WellFormedUnion(ColourSymbols + LowNumberSymbols, HighNumberSymbols);
    VariableSymbolsWellFormed();
    WellFormedUnion(ColourSymbols + LowNumberSymbols + HighNumberSymbols, VariableSymbols);
    HybridSymbolsWellFormed();
    WellFormedUnion(ColourSymbols + LowNumberSymbols + HighNumberSymbols + VariableSymbols, HybridSymbols);
    MonoHybridSymbolsWellFormed();
    WellFormedUnion(ColourSymbols + LowNumberSymbols + HighNumberSymbols + VariableSymbols + HybridSymbols, MonoHybridSymbols);
    PhyrexianSymbolsWellFormed();
    WellFormedUnion(ColourSymbols + LowNumberSymbols + HighNumberSymbols + VariableSymbols + HybridSymbols + MonoHybridSymbols, PhyrexianSymbols);
  }

  lemma ColourSymbolsWellFormed()
    ensures WellFormedTable(ColourSymbols)
  {
  }

  lemma LowNumberSymbolsWellFormed()
    ensures WellFormedTable(LowNumberSymbols)
  {
  }

  lemma HighNumberSymbolsWellFormed()
    ensures WellFormedTable(HighNumberSymbols)
  {
  }

  lemma VariableSymbolsWellFormed()
    ensures WellFormedTable(VariableSymbols)
  {
  }

  lemma HybridSymbolsWellFormed()
    ensures WellFormedTable(HybridSymbols)
  {
  }

  lemma MonoHybridSymbolsWellFormed()
    ensures WellFormedTable(MonoHybridSymbols)
  {
  }

  lemma PhyrexianSymbolsWellFormed()
    ensures WellFormedTable(PhyrexianSymbols)
  {
  }

  /** The characters `String.prototype.trim` removes: ECMAScript WhiteSpace and
      LineTerminator code points. */
  predicate IsJsWhitespace(c: char)
  {
    || c == '\t' || c == '\U{000B}' || c == '\U{000C}' || c == ' ' || c == '\U{00A0}'
    || c == '\U{FEFF}' || c == '\U{1680}' || ('\U{2000}' <= c <= '\U{200A}')
    || c == '\U{202F}' || c == '\U{205F}' || c == '\U{3000}'
    || c == '\n' || c == '\r' || c == '\U{2028}' || c == '\U{2029}'
  }

  function TrimStart(s: string): (r: string)
    ensures |r| <= |s| && r == s[|s| - |r|..]
    ensures r == [] || !IsJsWhitespace(r[0])
    ensures forall i :: 0 <= i < |s| - |r| ==> IsJsWhitespace(s[i])
  {
    if s != [] && IsJsWhitespace(s[0]) then TrimStart(s[1..]) else s
  }

  function TrimEnd(s: string): (r: string)
    ensures |r| <= |s| && r == s[..|r|]
    ensures r == [] || !IsJsWhitespace(r[|r| - 1])
    ensures forall i :: |r| <= i < |s| ==> IsJsWhitespace(s[i])
  {
    if s != [] && IsJsWhitespace(s[|s| - 1]) then TrimEnd(s[..|s| - 1]) else s
  }

  /** Everything of `s` before index `a` and from index `b` on is whitespace. */
  predicate WhitespaceOutside(s: string, a: int, b: int)
  {
    && 0 <= a <= b <= |s|
    && (forall i :: 0 <= i < a ==> IsJsWhitespace(s[i]))
    && (forall i :: b <= i < |s| ==> IsJsWhitespace(s[i]))
  }

  /** `part.trim()`: the slice of the part left after removing leading and trailing
      whitespace; what remains neither starts nor ends with whitespace. */
  function Trim(s: string): (r: string)
    ensures |r| <= |s|
    ensures forall i :: 0 <= i < |r| ==> r[i] in s
    ensures r == [] || (!IsJsWhitespace(r[0]) && !IsJsWhitespace(r[|r| - 1]))
  {
    TrimElements(s);
    TrimEdges(s);
    TrimEnd(TrimStart(s))
  }

  /** The length of the run of whitespace `s` starts with. */
  function LeadingSpace(s: string): (n: nat)
    ensures n <= |s|
    ensures forall i :: 0 <= i < n ==> IsJsWhitespace(s[i])
    ensures n == |s| || !IsJsWhitespace(s[n])
  {
    |s| - |TrimStart(s)|
  }

  /** `Trim(s)` is the slice of `s` that starts after its leading whitespace and
      leaves out only whitespace at the end: nothing but leading and trailing
      whitespace is removed. */
  lemma TrimIsSlice(s: string)
    ensures Trim(s) == s[LeadingSpace(s)..LeadingSpace(s) + |Trim(s)|]
    ensures WhitespaceOutside(s, LeadingSpace(s), LeadingSpace(s) + |Trim(s)|)
  {
    var t := TrimStart(s);
    SliceOfSlice(s, t, TrimEnd(t), c => IsJsWhitespace(c));
  }

  /** A prefix `r` of a suffix `t` of `s` is the slice of `s` it sits at, and what
      `r` leaves of `t` is what follows that slice in `s`. */
  lemma SliceOfSlice<T>(s: seq<T>, t: seq<T>, r: seq<T>, p: T -> bool)
    requires |t| <= |s| && t == s[|s| - |t|..]
    requires |r| <= |t| && r == t[..|r|]
    requires forall i :: |r| <= i < |t| ==> p(t[i])
    ensures r == s[|s| - |t|..|s| - |t| + |r|]
    ensures forall i :: |s| - |t| + |r| <= i < |s| ==> p(s[i])
  {
    var a := |s| - |t|;
    forall i | a + |r| <= i < |s|
      ensures p(s[i])
    {
      assert s[i] == t[i - a];
    }
  }

  lemma TrimEdges(s: string)
    ensures var r := TrimEnd(TrimStart(s));
            r == [] || (!IsJsWhitespace(r[0]) && !IsJsWhitespace(r[|r| - 1]))
  {
    var t := TrimStart(s);
    var r := TrimEnd(t);
    if r != [] {
      assert t != [] && r[0] == t[0];
    }
  }

  lemma TrimElements(s: string)
    ensures forall i :: 0 <= i < |TrimEnd(TrimStart(s))| ==> TrimEnd(TrimStart(s))[i] in s
  {
    var t := TrimStart(s);
    var r := TrimEnd(t);
    SliceElements(s, |s| - |t|, |r|);
  }

  lemma SliceElements(s: string, k: nat, m: nat)
    requires k + m <= |s|
    ensures forall i :: 0 <= i < m ==> s[k..][..m][i] in s
  {
    forall i | 0 <= i < m
      ensures s[k..][..m][i] in s
    {
      assert s[k..][..m][i] == s[k + i];
    }
  }

  lemma TrimKeepsBraceToken(p: string)
    requires IsBraceToken(p)
    ensures Trim(p) == p
  {
    assert TrimStart(p) == p;
    assert TrimEnd(p) == p;
  }

  lemma TrimKeepsTextRunWithoutSpace(p: string)
    requires p != [] && !IsJsWhitespace(p[0]) && !IsJsWhitespace(p[|p| - 1])
    ensures Trim(p) == p
  {
    assert TrimStart(p) == p;
    assert TrimEnd(p) == p;
  }

  lemma TrimmedTextRunHasNoBrace(p: string)
    requires IsTextRun(p)
    ensures forall i :: 0 <= i < |Trim(p)| ==> !IsBrace(Trim(p)[i])
  {
    var r := Trim(p);
    forall i | 0 <= i < |r|
      ensures !IsBrace(r[i])
    {
      var j :| 0 <= j < |p| && p[j] == r[i];
    }
  }

  /** One rendered part: an icon for a known symbol, or literal text. */
  datatype Segment = Icon(symbol: string) | Text(text: string)

  /** The classification of one part against a symbol table: look up the trimmed
      part and emit an icon when the address found is truthy; otherwise the raw
      part. The renderer uses `ManaSymbols`. */
  function Classify(table: map<string, string>, part: string): Segment
  {
    var trimmed := Trim(part);
    if trimmed in table && table[trimmed] != "" then Icon(trimmed) else Text(part)
  }

  function ClassifyAll(table: map<string, string>, parts: seq<string>): (r: seq<Segment>)
    ensures |r| == |parts|
    ensures forall i :: 0 <= i < |parts| ==> r[i] == Classify(table, parts[i])
  {
    seq(|parts|, i requires 0 <= i < |parts| => Classify(table, parts[i]))
  }

  /** `replaceManaSymbolsWithIcons(text = '')` against a symbol table: an absent
      text renders as the empty one. */
  function RenderWith(table: map<string, string>, text: Option<string>): seq<Segment>
  {
    var s := if text.Some? then text.value else "";
    ClassifyAll(table, Tokenize(s))
  }

  /** The renderer, with the source's symbol table. */
  function Render(text: Option<string>): seq<Segment>
  {
    RenderWith(ManaSymbols, text)
  }

  /** A part becomes an icon exactly when its trimmed form is a key of the table;
      the icon names that key, and any other part is kept as raw text. */
  lemma RenderClassification(s: string, i: nat)
    requires i < |Tokenize(s)|
    ensures |Render(Some(s))| == |Tokenize(s)|
    ensures Render(Some(s))[i].Icon? <==> Trim(Tokenize(s)[i]) in ManaSymbols
    ensures Render(Some(s))[i] == if Trim(Tokenize(s)[i]) in ManaSymbols
                                  then Icon(Trim(Tokenize(s)[i]))
                                  else Text(Tokenize(s)[i])
  {
    ManaSymbolKeysAreBraceTokens();
    ClassifyByKey(ManaSymbols, Tokenize(s)[i]);
  }

  /** With a well-formed table, a part is an icon exactly when its trimmed form is a key. */
  lemma ClassifyByKey(table: map<string, string>, part: string)
    requires WellFormedTable(table)
    ensures Classify(table, part) == if Trim(part) in table then Icon(Trim(part)) else Text(part)
  {
  }

  /** Text runs never become icons: every key holds braces and a trimmed run has none. */
  lemma TextRunNeverIcon(table: map<string, string>, p: string)
    requires WellFormedTable(table)
    requires IsTextRun(p)
    ensures Classify(table, p) == Text(p)
  {
    TrimmedTextRunHasNoBrace(p);
    if Trim(p) in table {
      assert IsBraceToken(Trim(p));
      assert IsBrace(Trim(p)[0]);
    }
  }

  /** A brace token is an icon exactly when it is a key; an unknown one is kept raw. */
  lemma BraceTokenClassification(table: map<string, string>, p: string)
    requires WellFormedTable(table)
    requires IsBraceToken(p)
    ensures Classify(table, p) == if p in table then Icon(p) else Text(p)
  {
    TrimKeepsBraceToken(p);
  }

  /** The raw text a segment stands for: the symbol key of an icon, the text otherwise. */
  function SegmentRaw(seg: Segment): string
  {
    match seg
    case Icon(k) => k
    case Text(t) => t
  }

  function RawForm(segs: seq<Segment>): string
  {
    if segs == [] then [] else SegmentRaw(segs[0]) + RawForm(segs[1..])
  }

  /** Classifying a token keeps its raw text. */
  lemma ClassifyKeepsRaw(table: map<string, string>, p: string)
    requires WellFormedTable(table)
    requires IsBraceToken(p) || IsTextRun(p)
    ensures SegmentRaw(Classify(table, p)) == p
  {
    if IsBraceToken(p) {
      BraceTokenClassification(table, p);
    } else {
      TextRunNeverIcon(table, p);
    }
  }

  /** Segments each standing for its part read back as the parts' concatenation. */
  lemma {:induction false} RawFormOfSegments(segs: seq<Segment>, parts: seq<string>)
    requires |segs| == |parts| && forall i :: 0 <= i < |parts| ==> SegmentRaw(segs[i]) == parts[i]
    ensures RawForm(segs) == Concat(parts)
  {
    if parts != [] {
      RawFormOfSegments(segs[1..], parts[1..]);
    }
  }

  lemma RawFormOfParts(table: map<string, string>, parts: seq<string>)
    requires WellFormedTable(table)
    requires forall i :: 0 <= i < |parts| ==> IsBraceToken(parts[i]) || IsTextRun(parts[i])
    ensures RawForm(ClassifyAll(table, parts)) == Concat(parts)
  {
    var segs := ClassifyAll(table, parts);
    forall i | 0 <= i < |parts|
      ensures SegmentRaw(segs[i]) == parts[i]
    {
      ClassifyKeepsRaw(table, parts[i]);
    }
    RawFormOfSegments(segs, parts);
  }

  /** Rendering round trip: reading icons back as their keys reproduces the input
      exactly when the scan stepped over no stray brace. */
  lemma RenderRoundTrip(s: string)
    ensures RawForm(Render(Some(s))) == s <==> SkipCount(Scan(s)) == 0
  {
    TokenizePartsWellFormed(s);
    ManaSymbolKeysAreBraceTokens();
    RawFormOfParts(ManaSymbols, Tokenize(s));
    TokenizeLosesOnlySkipped(s);
  }

  /** Undefined or empty text renders as nothing. */
  lemma RenderEmpty()
    ensures Render(None) == [] && Render(Some("")) == []
  {
  }

  /** `"{2}{W/P}Foo"` is split into two brace tokens and a text run. */
  lemma TokenizeExample()
    ensures Tokenize("{2}{W/P}Foo") == ["{2}", "{W/P}", "Foo"]
  {
    var parts := ["{2}", "{W/P}", "Foo"];
    assert IsBraceToken(parts[0]) && IsBraceToken(parts[1]) && IsTextRun(parts[2]);
    assert Tokenizable(parts);
    assert Concat(parts) == "{2}{W/P}Foo" by {
      assert Concat(parts[2..]) == "Foo";
      assert Concat(parts[1..]) == "{W/P}Foo";
    }
    TokenizeConcat(parts);
  }

  lemma LowNumberInTable(k: string)
    requires k in LowNumberSymbols
    ensures k in ManaSymbols
  {
  }

  lemma PhyrexianInTable(k: string)
    requires k in PhyrexianSymbols
    ensures k in ManaSymbols
  {
  }

  lemma ClassifyExampleCost()
    ensures Classify(ManaSymbols, "{2}") == Icon("{2}")
  {
    assert "{2}" in LowNumberSymbols;
    LowNumberInTable("{2}");
    ManaSymbolKeysAreBraceTokens();
    BraceTokenClassification(ManaSymbols, "{2}");
  }

  lemma ClassifyExamplePhyrexian()
    ensures Classify(ManaSymbols, "{W/P}") == Icon("{W/P}")
  {
    assert "{W/P}" in PhyrexianSymbols;
    PhyrexianInTable("{W/P}");
    ManaSymbolKeysAreBraceTokens();
    BraceTokenClassification(ManaSymbols, "{W/P}");
  }

  lemma ClassifyExampleText()
    ensures Classify(ManaSymbols, "Foo") == Text("Foo")
  {
    ManaSymbolKeysAreBraceTokens();
    TextRunNeverIcon(ManaSymbols, "Foo");
  }

  /** The rendering of a text is the classification of its parts. */
  lemma RenderWithParts(table: map<string, string>, s: string, parts: seq<string>)
    requires Tokenize(s) == parts
    ensures RenderWith(table, Some(s)) == ClassifyAll(table, parts)
  {
  }

  /** Classifying three parts gives the three classifications, in order. */
  lemma ClassifyThree(table: map<string, string>, parts: seq<string>, x: Segment, y: Segment, z: Segment)
    requires |parts| == 3
    requires Classify(table, parts[0]) == x && Classify(table, parts[1]) == y && Classify(table, parts[2]) == z
    ensures ClassifyAll(table, parts) == [x, y, z]
  {
    var r := ClassifyAll(table, parts);
    ThreeElements(r);
  }

  lemma ThreeElements<T>(r: seq<T>)
    requires |r| == 3
    ensures r == [r[0], r[1], r[2]]
  {
  }

  /** `"{2}{W/P}Foo"` renders as the icons for `{2}` and `{W/P}`, then the text `Foo`. */
  lemma RenderExample()
    ensures Render(Some("{2}{W/P}Foo")) == [Icon("{2}"), Icon("{W/P}"), Text("Foo")]
  {
    ClassifyExampleCost();
    ClassifyExamplePhyrexian();
    ClassifyExampleText();
    TokenizeExample();
    ClassifyThree(ManaSymbols, ["{2}", "{W/P}", "Foo"], Icon("{2}"), Icon("{W/P}"), Text("Foo"));
    RenderWithParts(ManaSymbols, "{2}{W/P}Foo", ["{2}", "{W/P}", "Foo"]);
  }

  /** Names every plain object literal inherits from `Object.prototype`; looking one
      of them up in the symbol table object yields a function (or, for `__proto__`,
      an object), which is truthy. */
  const ObjectPrototypeNames: set<string> :=
    {"constructor", "hasOwnProperty", "isPrototypeOf", "propertyIsEnumerable",
     "toLocaleString", "toString", "valueOf", "__proto__",
     "__defineGetter__", "__defineSetter__", "__lookupGetter__", "__lookupSetter__"}

  /** The lookup `manaSymbols[trimmed]` as the source writes it: a property read on a
      plain object, which also finds the inherited prototype members. */
  predicate LookupAsWritten(table: map<string, string>, key: string)
  {
    (key in table && table[key] != "") || key in ObjectPrototypeNames
  }

  function ClassifyAsWritten(table: map<string, string>, part: string): Segment
  {
    var trimmed := Trim(part);
    if LookupAsWritten(table, trimmed) then Icon(trimmed) else Text(part)
  }

  /** As written, the text run `toString` is rendered as an icon (with a function as
      its image address); the intended classification keeps it as text. */
  lemma PrototypeNameBecomesIcon()
    ensures IsTextRun("toString")
    ensures ClassifyAsWritten(ManaSymbols, "toString") == Icon("toString")
    ensures Classify(ManaSymbols, "toString") == Text("toString")
  {
    ToStringIsTextRun();
    TrimKeepsTextRunWithoutSpace("toString");
    assert "toString" in ObjectPrototypeNames;
    ManaSymbolKeysAreBraceTokens();
    TextRunNeverIcon(ManaSymbols, "toString");
  }

  lemma ToStringIsTextRun()
    ensures IsTextRun("toString")
    ensures forall i :: 0 <= i < |"toString"| ==> !IsJsWhitespace("toString"[i])
  {
  }
}
