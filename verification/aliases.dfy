/**
 * The alias registry: the short, user-facing node identifiers used in
 * variable paths (`workflow.<alias>.<field>`). Generation of a fresh alias,
 * the two validators (the application shell's and the properties panel's,
 * which disagree) and the suggestion sanitiser.
 */
module Aliases {
  import opened Wrappers
  import opened Text
  import opened Models

  // ---------------------------------------------------------------------------
  // Numbered candidates: base, base1, base2, ...
  // ---------------------------------------------------------------------------

  /** The `k`-th name tried when searching for a free name: `base` itself, then `base1`, `base2`, ... */
  function Suffixed(base: string, k: nat): string {
    if k == 0 then base else base + NatToString(k)
  }

  lemma SuffixedInjective(base: string, j: nat, k: nat)
    requires Suffixed(base, j) == Suffixed(base, k)
    ensures j == k
  {
    if j != 0 && k != 0 {
      var sj, sk := Suffixed(base, j), Suffixed(base, k);
      assert sj[|base|..] == NatToString(j);
      assert sk[|base|..] == NatToString(k);
      NatToStringInjective(j, k);
    }
  }

  /** The candidates below `counter` are those below `counter - 1` plus one new name. */
  lemma CandidateImageStep(base: string, start: nat, counter: nat)
    requires start < counter
    ensures var x := Suffixed(base, counter - 1);
            var prev := set j: nat | start <= j < counter - 1 :: Suffixed(base, j);
            && (set j: nat | start <= j < counter :: Suffixed(base, j)) == prev + {x}
            && x !in prev
  {
    var prev := set j: nat | start <= j < counter - 1 :: Suffixed(base, j);
    var all := set j: nat | start <= j < counter :: Suffixed(base, j);
    var x := Suffixed(base, counter - 1);
    forall s | s in all ensures s in prev + {x} {
      var j: nat :| start <= j < counter && Suffixed(base, j) == s;
      if j < counter - 1 { assert s in prev; }
    }
    if x in prev {
      var j: nat :| start <= j < counter - 1 && Suffixed(base, j) == x;
      SuffixedInjective(base, j, counter - 1);
    }
  }

  lemma {:induction false} CandidateImageSize(base: string, start: nat, counter: nat)
    requires start <= counter
    ensures |set j: nat | start <= j < counter :: Suffixed(base, j)| == counter - start
  {
    if counter > start {
      CandidateImageSize(base, start, counter - 1);
      CandidateImageStep(base, start, counter);
    } else {
      assert (set j: nat | start <= j < counter :: Suffixed(base, j)) == {};
    }
  }

  /** If every candidate from `start` below `counter` is taken, `used` has at least that many names. */
  lemma CandidatesFit(base: string, used: set<string>, start: nat, counter: nat)
    requires start <= counter
    requires forall j: nat :: start <= j < counter ==> Suffixed(base, j) in used
    ensures counter - start <= |used|
  {
    var image := set j: nat | start <= j < counter :: Suffixed(base, j);
    CandidateImageSize(base, start, counter);
    assert image <= used;
    SubsetCardinality(image, used);
  }

  lemma SubsetCardinality<T>(a: set<T>, b: set<T>)
    requires a <= b
    ensures |a| <= |b|
  {
    assert b == a + (b - a);
  }

  /**
   * The index of the first free candidate at or after `counter`, in a search
   * that started at `start` (the `while (inUse(name)) name = base + counter++` loops).
   */
  function FirstFreeFrom(base: string, used: set<string>, start: nat, counter: nat): (r: nat)
    requires start <= counter
    requires forall j: nat :: start <= j < counter ==> Suffixed(base, j) in used
    ensures counter <= r
    ensures Suffixed(base, r) !in used
    ensures forall j: nat :: start <= j < r ==> Suffixed(base, j) in used
    decreases |used| - (counter - start)
  {
    CandidatesFit(base, used, start, counter);
    if Suffixed(base, counter) !in used then counter
    else
      CandidatesFit(base, used, start, counter + 1);
      FirstFreeFrom(base, used, start, counter + 1)
  }

  /** The first of `base`, `base1`, `base2`, ... that is not in `used`. */
  function FirstFree(base: string, used: set<string>): (r: string)
    ensures r !in used
    ensures exists k: nat :: r == Suffixed(base, k) && forall j: nat :: j < k ==> Suffixed(base, j) in used
    ensures base !in used ==> r == base
  {
    var k := FirstFreeFrom(base, used, 0, 0);
    Suffixed(base, k)
  }

  // ---------------------------------------------------------------------------
  // generateUniqueAlias / isAliasInUse
  // ---------------------------------------------------------------------------

  /** The type-specific base token a new node's alias is derived from. */
  function BaseAlias(t: NodeType): string {
    match t
    case Start => "start"
    case Agent => "agent"
    case End => "end"
    case Mcp => "tool"
    case IfElse => "condition"
    case Sequential => "sequence"
    case Parallel => "parallel"
  }

  function AliasesOf(nodes: seq<WorkflowNode>): set<string> {
    set i | 0 <= i < |nodes| :: nodes[i].alias
  }

  predicate IsAliasInUse(nodes: seq<WorkflowNode>, alias: string) {
    exists i :: 0 <= i < |nodes| && nodes[i].alias == alias
  }

  /** A fresh alias for a node of type `t`: free among `nodes`, and the first free one of base, base1, base2, ... */
  function GenerateUniqueAlias(t: NodeType, nodes: seq<WorkflowNode>): (r: string)
    ensures !IsAliasInUse(nodes, r)
    ensures exists k: nat :: r == Suffixed(BaseAlias(t), k)
              && forall j: nat :: j < k ==> IsAliasInUse(nodes, Suffixed(BaseAlias(t), j))
    ensures !IsAliasInUse(nodes, BaseAlias(t)) ==> r == BaseAlias(t)
  {
    var used := AliasesOf(nodes);
    var r := FirstFree(BaseAlias(t), used);
    assert forall a :: a in used <==> IsAliasInUse(nodes, a) by {
      forall a ensures a in used <==> IsAliasInUse(nodes, a) {
        if IsAliasInUse(nodes, a) {
          var i :| 0 <= i < |nodes| && nodes[i].alias == a;
          assert nodes[i].alias in used;
        }
      }
    }
    r
  }

  // ---------------------------------------------------------------------------
  // Alias format shared by both validators
  // ---------------------------------------------------------------------------

  /** `^[a-z][a-z0-9_]*$`. */
  predicate MatchesAliasPattern(s: string) {
    && |s| > 0
    && IsLower(s[0])
    && forall i :: 0 < i < |s| ==> IsLower(s[i]) || IsDigit(s[i]) || s[i] == '_'
  }

  const ReservedWords: seq<string> := ["input", "output", "workflow", "runtime", "system"]

  datatype AliasError = Required | BadFormat | BadLength | Reserved | Duplicate

  /** The message the application shell shows for each failure. */
  function ErrorMessage(e: AliasError): string {
    match e
    case Required => "Alias is required"
    case BadFormat => "Alias must start with a letter and contain only lowercase letters, numbers, and underscores"
    case BadLength => "Alias must be 2-20 characters long"
    case Reserved => "This alias is reserved and cannot be used"
    case Duplicate => "This alias is already in use by another node"
  }

  datatype Validation = Valid | Invalid(error: AliasError)

  /** The alias after `trim().toLowerCase()`. */
  function Normalize(alias: string): string {
    Lower(Trim(alias))
  }

  /** The index of the first node carrying `alias` (`Array.prototype.find`). */
  function FindByAlias(nodes: seq<WorkflowNode>, alias: string): (r: Option<nat>)
    ensures r.None? <==> !IsAliasInUse(nodes, alias)
    ensures r.Some? ==> r.value < |nodes| && nodes[r.value].alias == alias
                        && forall j :: 0 <= j < r.value ==> nodes[j].alias != alias
  {
    if |nodes| == 0 then None
    else if nodes[0].alias == alias then Some(0)
    else match FindByAlias(nodes[1..], alias)
      case None => None
      case Some(k) => Some(k + 1)
  }

  // ---------------------------------------------------------------------------
  // validateAlias, application shell version
  // ---------------------------------------------------------------------------

  /**
   * The shell's validator: blank check, then on the trimmed, lower-cased alias
   * the format, the length 2..20, the reserved words and uniqueness against
   * the first node carrying it (unless that node is `currentNodeId`), in this order.
   */
  function ValidateAlias(nodes: seq<WorkflowNode>, alias: string, currentNodeId: Option<string>): (v: Validation)
    ensures v == Invalid(Required) <==> IsBlank(alias)
    ensures v == Invalid(BadFormat) <==> !IsBlank(alias) && !MatchesAliasPattern(Normalize(alias))
    ensures v == Invalid(BadLength) <==>
              && !IsBlank(alias) && MatchesAliasPattern(Normalize(alias))
              && !(2 <= |Normalize(alias)| <= 20)
    ensures v == Invalid(Reserved) <==>
              && !IsBlank(alias) && MatchesAliasPattern(Normalize(alias))
              && 2 <= |Normalize(alias)| <= 20
              && Normalize(alias) in ReservedWords
    ensures v == Invalid(Duplicate) <==>
              && !IsBlank(alias) && MatchesAliasPattern(Normalize(alias))
              && 2 <= |Normalize(alias)| <= 20
              && Normalize(alias) !in ReservedWords
              && FindByAlias(nodes, Normalize(alias)).Some?
              && Some(nodes[FindByAlias(nodes, Normalize(alias)).value].id) != currentNodeId
    ensures v.Valid? ==> && MatchesAliasPattern(Normalize(alias))
                         && 2 <= |Normalize(alias)| <= 20
                         && Normalize(alias) !in ReservedWords
  {
    if alias == "" || Trim(alias) == "" then
      TrimEmptyIffBlank(alias);
      Invalid(Required)
    else
      TrimEmptyIffBlank(alias);
      var a := Normalize(alias);
      if !MatchesAliasPattern(a) then Invalid(BadFormat)
      else if |a| < 2 || |a| > 20 then Invalid(BadLength)
      else if a in ReservedWords then Invalid(Reserved)
      else match FindByAlias(nodes, a)
        case Some(i) =>
          if Some(nodes[i].id) != currentNodeId then Invalid(Duplicate) else Valid
        case None => Valid
  }

  /** No two nodes share an alias (what the registry maintains). */
  predicate AliasesUnique(nodes: seq<WorkflowNode>) {
    forall i, j :: 0 <= i < j < |nodes| ==> nodes[i].alias != nodes[j].alias
  }

  /**
   * Under unique aliases, a valid alias is carried by no node other than
   * `currentNodeId`; conversely a well-formed alias that no other node
   * carries is accepted.
   */
  lemma ValidateAliasUniqueness(nodes: seq<WorkflowNode>, alias: string, currentNodeId: Option<string>)
    requires AliasesUnique(nodes)
    ensures ValidateAlias(nodes, alias, currentNodeId).Valid? <==>
              && !IsBlank(alias)
              && MatchesAliasPattern(Normalize(alias))
              && 2 <= |Normalize(alias)| <= 20
              && Normalize(alias) !in ReservedWords
              && forall i :: 0 <= i < |nodes| && nodes[i].alias == Normalize(alias) ==> Some(nodes[i].id) == currentNodeId
  {
    TrimEmptyIffBlank(alias);
    var a := Normalize(alias);
    if !IsBlank(alias) && MatchesAliasPattern(a) && 2 <= |a| <= 20 && a !in ReservedWords {
      assert alias != "" && Trim(alias) != "";
      FirstCarrierDecides(nodes, a, currentNodeId);
    }
  }

  /** Under unique aliases, the first node carrying `a` is the only one. */
  lemma FirstCarrierDecides(nodes: seq<WorkflowNode>, a: string, currentNodeId: Option<string>)
    requires AliasesUnique(nodes)
    ensures var f := FindByAlias(nodes, a);
            (match f
             case None => true
             case Some(k) => Some(nodes[k].id) == currentNodeId)
            <==> forall i :: 0 <= i < |nodes| && nodes[i].alias == a ==> Some(nodes[i].id) == currentNodeId
  {
    match FindByAlias(nodes, a)
    case None =>
    case Some(k) =>
      assert forall i :: 0 <= i < |nodes| && nodes[i].alias == a ==> i == k;
  }

  // ---------------------------------------------------------------------------
  // validateAlias, properties panel version
  // ---------------------------------------------------------------------------

  /**
   * The panel's validator: only non-empty, the format and uniqueness against
   * every node whose id differs from `nodeId`; no trimming, lower-casing,
   * length or reserved-word check.
   */
  function PanelValidateAlias(nodes: seq<WorkflowNode>, alias: string, nodeId: string): (v: Validation)
    ensures v.Valid? <==> && MatchesAliasPattern(alias)
                          && forall i :: 0 <= i < |nodes| && nodes[i].id != nodeId ==> nodes[i].alias != alias
    ensures v.Invalid? ==> v.error in {Required, BadFormat, Duplicate}
    ensures v == Invalid(Required) <==> alias == ""
    ensures v == Invalid(BadFormat) <==> alias != "" && !MatchesAliasPattern(alias)
    ensures v == Invalid(Duplicate) <==>
              && alias != "" && MatchesAliasPattern(alias)
              && exists i :: 0 <= i < |nodes| && nodes[i].id != nodeId && nodes[i].alias == alias
  {
    if alias == "" then Invalid(Required)
    else if !MatchesAliasPattern(alias) then Invalid(BadFormat)
    else if exists i :: 0 <= i < |nodes| && nodes[i].id != nodeId && nodes[i].alias == alias then Invalid(Duplicate)
    else Valid
  }

  /** Normalisation is idempotent, so the shell judges "AB" exactly as "ab". */
  lemma NormalizeIdempotent(alias: string)
    ensures Normalize(Normalize(alias)) == Normalize(alias)
  {
    var t := Trim(alias);
    var l := Lower(t);
    LowerPreservesSpace(t);
    TrimOfTrimmed(l);
    LowerIdempotent(l);
  }

  lemma LowerPreservesSpace(s: string)
    ensures |Lower(s)| > 0 ==> (IsSpace(Lower(s)[0]) <==> IsSpace(s[0]))
    ensures |Lower(s)| > 0 ==> (IsSpace(Lower(s)[|s| - 1]) <==> IsSpace(s[|s| - 1]))
  {
  }

  lemma LowerIdempotent(s: string)
    ensures Lower(Lower(s)) == Lower(s)
  {
  }

  lemma TrimOfTrimmed(s: string)
    requires |s| > 0 ==> !IsSpace(s[0]) && !IsSpace(s[|s| - 1])
    ensures Trim(s) == s
  {
  }

  /** The shell validates an alias exactly as it validates its normalised form. */
  lemma ValidateAliasNormalized(nodes: seq<WorkflowNode>, alias: string, currentNodeId: Option<string>)
    requires !IsBlank(alias)
    ensures ValidateAlias(nodes, Normalize(alias), currentNodeId) == ValidateAlias(nodes, alias, currentNodeId)
  {
    NormalizeIdempotent(alias);
    TrimEmptyIffBlank(alias);
    var t := Trim(alias);
    var n := Normalize(alias);
    LowerPreservesSpace(t);
    TrimOfTrimmed(n);
    TrimEmptyIffBlank(n);
  }

  /**
   * Under unique aliases every alias the shell accepts (in normalised form)
   * the panel accepts as well.
   */
  lemma ShellValidImpliesPanelValid(nodes: seq<WorkflowNode>, alias: string, nodeId: string)
    requires AliasesUnique(nodes)
    requires ValidateAlias(nodes, alias, Some(nodeId)).Valid?
    ensures PanelValidateAlias(nodes, Normalize(alias), nodeId).Valid?
  {
    ValidateAliasUniqueness(nodes, alias, Some(nodeId));
  }

  /** A string without surrounding white space or upper-case letters is its own normal form. */
  lemma NormalizeCanonical(s: string)
    requires |s| > 0 ==> !IsSpace(s[0]) && !IsSpace(s[|s| - 1])
    requires forall i :: 0 <= i < |s| ==> !IsUpper(s[i])
    ensures Normalize(s) == s
  {
    TrimOfTrimmed(s);
  }

  /** A well-formed alias is not blank and is its own normal form. */
  lemma PatternIsCanonical(s: string)
    requires MatchesAliasPattern(s)
    ensures !IsBlank(s) && Normalize(s) == s
  {
    assert !IsSpace(s[0]);
    forall i | 0 <= i < |s| ensures !IsUpper(s[i]) && !IsSpace(s[i]) {
      if i > 0 { assert IsLower(s[i]) || IsDigit(s[i]) || s[i] == '_'; }
    }
    NormalizeCanonical(s);
  }

  /** The converse fails: the panel accepts a reserved word the shell rejects. */
  lemma PanelAcceptsReservedWord()
    ensures PanelValidateAlias([], "workflow", "n1") == Valid
    ensures ValidateAlias([], "workflow", Some("n1")) == Invalid(Reserved)
  {
    var w := "workflow";
    assert MatchesAliasPattern(w);
    PatternIsCanonical(w);
    TrimEmptyIffBlank(w);
    assert w == ReservedWords[2];
  }

  // ---------------------------------------------------------------------------
  // sanitizeAlias
  // ---------------------------------------------------------------------------

  predicate IsAliasChar(c: char) { IsLower(c) || IsDigit(c) || c == '_' }

  /** No two adjacent underscores. */
  predicate NoDoubleUnderscore(s: string) {
    forall i :: 0 <= i < |s| - 1 ==> !(s[i] == '_' && s[i + 1] == '_')
  }

  /** Only alias characters and no doubled underscore: what the collapsing step leaves. */
  predicate AliasShape(s: string) {
    && (forall i :: 0 <= i < |s| ==> IsAliasChar(s[i]))
    && NoDoubleUnderscore(s)
  }

  /** `.replace(/[^a-z0-9\s]/g, '')`. */
  function KeepAliasInput(s: string): (r: string)
    ensures |r| <= |s|
    ensures forall i :: 0 <= i < |r| ==> IsLower(r[i]) || IsDigit(r[i]) || IsSpace(r[i])
  {
    if |s| == 0 then []
    else if IsLower(s[0]) || IsDigit(s[0]) || IsSpace(s[0]) then [s[0]] + KeepAliasInput(s[1..])
    else KeepAliasInput(s[1..])
  }

  /** `.replace(/\s+/g, '_')`: every maximal run of white space becomes one underscore. */
  function CollapseSpaces(s: string): (r: string)
    requires forall i :: 0 <= i < |s| ==> IsLower(s[i]) || IsDigit(s[i]) || IsSpace(s[i])
    ensures AliasShape(r)
    ensures |r| == 0 <==> |s| == 0
    ensures |r| > 0 ==> (r[0] == '_' <==> IsSpace(s[0]))
    decreases |s|
  {
    if |s| == 0 then []
    else if IsSpace(s[0]) then "_" + CollapseSpaces(TrimStart(s))
    else [s[0]] + CollapseSpaces(s[1..])
  }

  lemma SliceKeepsAliasShape(s: string, a: nat, b: nat)
    requires a <= b <= |s|
    requires AliasShape(s)
    ensures AliasShape(s[a..b])
  {
    var t := s[a..b];
    forall i | 0 <= i < |t| - 1 ensures !(t[i] == '_' && t[i + 1] == '_') {
      assert t[i] == s[a + i] && t[i + 1] == s[a + i + 1];
    }
  }

  /** `.replace(/^[^a-z]+/, '')`. */
  function DropLeadingNonLetters(s: string): (r: string)
    ensures |r| <= |s| && r == s[|s| - |r|..]
    ensures |r| > 0 ==> IsLower(r[0])
  {
    if |s| > 0 && !IsLower(s[0]) then DropLeadingNonLetters(s[1..]) else s
  }

  /** `.replace(/_+$/, '')`. */
  function DropTrailingUnderscores(s: string): (r: string)
    ensures |r| <= |s| && r == s[..|r|]
    ensures |r| > 0 ==> r[|r| - 1] != '_'
  {
    if |s| > 0 && s[|s| - 1] == '_' then DropTrailingUnderscores(s[..|s| - 1]) else s
  }

  const MaxAliasLength := 20

  /** `.substring(0, 20)`. */
  function Truncate(s: string): (r: string)
    ensures |r| <= MaxAliasLength && |r| <= |s| && r == s[..|r|]
    ensures |s| > 0 ==> |r| > 0
  {
    if |s| <= MaxAliasLength then s else s[..MaxAliasLength]
  }

  /**
   * The alias suggested for a free-text label: lower-case, keep `[a-z0-9]`
   * and white space, collapse white-space runs to `_`, drop leading
   * non-letters, keep at most 20 characters, drop trailing underscores.
   */
  function SanitizeAlias(text: string): (r: string)
    ensures AliasShape(r)
    ensures |r| <= MaxAliasLength
    ensures |r| > 0 ==> IsLower(r[0]) && r[|r| - 1] != '_'
  {
    var collapsed := CollapseSpaces(KeepAliasInput(Lower(text)));
    var lettered := DropLeadingNonLetters(collapsed);
    var cut := Truncate(lettered);
    var r := DropTrailingUnderscores(cut);
    SanitizeShape(collapsed, lettered, cut, r);
    r
  }

  lemma SanitizeShape(collapsed: string, lettered: string, cut: string, r: string)
    requires AliasShape(collapsed)
    requires |lettered| <= |collapsed| && lettered == collapsed[|collapsed| - |lettered|..]
    requires |lettered| > 0 ==> IsLower(lettered[0])
    requires |cut| <= |lettered| && cut == lettered[..|cut|] && (|lettered| > 0 ==> |cut| > 0)
    requires |r| <= |cut| && r == cut[..|r|]
    ensures AliasShape(r)
    ensures |r| > 0 ==> IsLower(r[0])
  {
    var off := |collapsed| - |lettered|;
    assert r == collapsed[off..off + |r|];
    SliceKeepsAliasShape(collapsed, off, off + |r|);
    if |r| > 0 {
      assert r[0] == cut[0] == lettered[0];
    }
  }

  /** A well-formed alias of admissible length fails the shell only as reserved or duplicate. */
  lemma WellFormedFailsOnlyOnRegistry(nodes: seq<WorkflowNode>, a: string, currentNodeId: Option<string>)
    requires MatchesAliasPattern(a) && 2 <= |a| <= MaxAliasLength
    ensures ValidateAlias(nodes, a, currentNodeId).Invalid? ==>
              ValidateAlias(nodes, a, currentNodeId).error in {Reserved, Duplicate}
  {
    PatternIsCanonical(a);
    TrimEmptyIffBlank(a);
  }

  /**
   * A suggestion of at least two characters passes the shell's blank, format
   * and length checks, so only a reserved word or a duplicate can reject it.
   */
  lemma SanitizedAliasIsWellFormed(nodes: seq<WorkflowNode>, text: string, currentNodeId: Option<string>)
    requires |SanitizeAlias(text)| >= 2
    ensures ValidateAlias(nodes, SanitizeAlias(text), currentNodeId).Invalid? ==>
              ValidateAlias(nodes, SanitizeAlias(text), currentNodeId).error in {Reserved, Duplicate}
  {
    var r := SanitizeAlias(text);
    assert AliasShape(r) && IsLower(r[0]);
    forall i | 0 < i < |r| ensures IsLower(r[i]) || IsDigit(r[i]) || r[i] == '_' {
      assert IsAliasChar(r[i]);
    }
    WellFormedFailsOnlyOnRegistry(nodes, r, currentNodeId);
  }

  /** Letters and digits only: text every step of the sanitiser passes through unchanged. */
  predicate LettersAndDigits(s: string) {
    forall i :: 0 <= i < |s| ==> IsLower(s[i]) || IsDigit(s[i])
  }

  lemma {:induction false} KeepAliasInputKeepsLettersAndDigits(s: string)
    requires LettersAndDigits(s)
    ensures KeepAliasInput(s) == s
    decreases |s|
  {
    if |s| > 0 {
      assert LettersAndDigits(s[1..]) by {
        forall i | 0 <= i < |s[1..]| ensures IsLower(s[1..][i]) || IsDigit(s[1..][i]) {
          assert s[1..][i] == s[i + 1];
        }
      }
      KeepAliasInputKeepsLettersAndDigits(s[1..]);
      assert s == [s[0]] + s[1..];
    }
  }

  lemma {:induction false} CollapseSpacesKeepsLettersAndDigits(s: string)
    requires LettersAndDigits(s)
    ensures CollapseSpaces(s) == s
    decreases |s|
  {
    if |s| > 0 {
      assert !IsSpace(s[0]);
      assert LettersAndDigits(s[1..]) by {
        forall i | 0 <= i < |s[1..]| ensures IsLower(s[1..][i]) || IsDigit(s[1..][i]) {
          assert s[1..][i] == s[i + 1];
        }
      }
      CollapseSpacesKeepsLettersAndDigits(s[1..]);
      assert s == [s[0]] + s[1..];
    }
  }

  /**
   * A label that is already an alias of letters and digits, starting with a
   * letter and at most 20 long, is suggested as itself.
   */
  lemma SanitizeKeepsCanonicalAlias(text: string)
    requires 0 < |text| <= MaxAliasLength && IsLower(text[0])
    requires LettersAndDigits(text)
    ensures SanitizeAlias(text) == text
  {
    assert Lower(text) == text by {
      forall i | 0 <= i < |text| ensures Lower(text)[i] == text[i] {
        assert !IsUpper(text[i]);
      }
    }
    KeepAliasInputKeepsLettersAndDigits(text);
    CollapseSpacesKeepsLettersAndDigits(text);
    assert DropLeadingNonLetters(text) == text;
    assert Truncate(text) == text;
    assert text[|text| - 1] != '_';
    assert DropTrailingUnderscores(text) == text;
  }

  /** Upper case is lowered and a run of white space becomes one underscore. */
  lemma SanitizeCollapsesSpaces()
    ensures SanitizeAlias("A  b") == "a_b"
  {
    LowerExample();
    KeepExample();
    CollapseExample();
    TailExample();
  }

  lemma TailExample()
    ensures DropTrailingUnderscores(Truncate(DropLeadingNonLetters("a_b"))) == "a_b"
  {
    assert DropLeadingNonLetters("a_b") == "a_b";
    assert Truncate("a_b") == "a_b";
    assert DropTrailingUnderscores("a_b") == "a_b";
  }

  lemma LowerExample()
    ensures Lower("A  b") == "a  b"
  {
    var l := Lower("A  b");
    assert l[0] == LowerChar('A') == 'a';
    assert l[1] == ' ' && l[2] == ' ' && l[3] == 'b';
  }

  lemma KeepExample()
    ensures KeepAliasInput("a  b") == "a  b"
  {
    assert KeepAliasInput("b") == "b";
    assert "a  b"[1..] == "  b" && "  b"[1..] == " b" && " b"[1..] == "b";
  }

  lemma CollapseExample()
    ensures CollapseSpaces("a  b") == "a_b"
  {
    assert TrimStart("  b") == "b" by {
      assert "  b"[1..] == " b" && " b"[1..] == "b";
      assert !IsSpace('b');
    }
    assert CollapseSpaces("b") == "b";
    assert "a  b"[1..] == "  b";
  }

  /** Underscores typed by the user do not survive, so a valid alias need not be its own suggestion. */
  lemma SanitizeDropsUnderscores()
    ensures SanitizeAlias("a_b") == "ab"
  {
    assert Lower("a_b") == "a_b";
    assert KeepAliasInput("a_b") == "ab";
    assert CollapseSpaces("ab") == "ab";
    assert DropLeadingNonLetters("ab") == "ab";
  }
}
