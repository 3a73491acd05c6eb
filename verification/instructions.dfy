/**
 * `processAgentInstructions`, shared verbatim by the preview compiler and the
 * execution service: every `${name}` (one or more `\w` characters) becomes a
 * workflow variable reference, `${workflow.input.user_request}` for
 * `user_request` and `${workflow.state.<name>}` otherwise, scanning left to
 * right as a global regular-expression replace does; a JSON-only directive
 * is appended when the agent asks for JSON output with a schema.
 */
module Instructions {
  import opened Wrappers
  import opened Text
  import opened Models

  /** The length of the longest prefix of `s` made of `\w` characters. */
  function WordRun(s: string): (r: nat)
    ensures r <= |s|
    ensures forall i :: 0 <= i < r ==> IsWordChar(s[i])
    ensures r < |s| ==> !IsWordChar(s[r])
  {
    if |s| > 0 && IsWordChar(s[0]) then 1 + WordRun(s[1..]) else 0
  }

  /** Any prefix of word characters ended by a non-word character (or the end) is the word run. */
  lemma WordRunIs(s: string, w: nat)
    requires w <= |s|
    requires forall i :: 0 <= i < w ==> IsWordChar(s[i])
    requires w < |s| ==> !IsWordChar(s[w])
    ensures WordRun(s) == w
  {
  }

  /**
   * `/\$\{(\w+)\}/` anchored at the start of `s`: the length of the name if
   * `s` begins with `$`, `{`, a maximal non-empty run of word characters
   * and `}`. (Backtracking to a shorter run cannot help: the next character
   * would be a word character, not `}`.)
   */
  function RefAt(s: string): (r: Option<nat>)
    ensures r.Some? ==> 1 <= r.value && 3 + r.value <= |s|
    ensures r.Some? ==> s[0] == '$' && s[1] == '{' && s[2 + r.value] == '}'
    ensures r.Some? ==> forall i :: 2 <= i < 2 + r.value ==> IsWordChar(s[i])
  {
    if |s| >= 2 && s[0] == '$' && s[1] == '{' then
      var w := WordRun(s[2..]);
      if w >= 1 && 2 + w < |s| && s[2 + w] == '}' then Some(w) else None
    else None
  }

  /** No reference can be matched anywhere in `s`. */
  predicate Fixed(s: string) {
    forall i :: 0 <= i < |s| ==> NoRefAt(s, i)
  }

  /** No reference starts at position `i`. */
  predicate NoRefAt(s: string, i: nat)
    requires i <= |s|
  {
    RefAt(s[i..]).None?
  }

  const UserRequestRef := "${workflow.input.user_request}"
  const StatePrefix := "${workflow.state."

  /** The text a matched `${name}` is replaced by. */
  function Replacement(name: string): (r: string)
    ensures |r| > |name| + 3 && |r| >= 11
    ensures r[0] == '$' && r[1] == '{' && r[10] == '.'
    ensures forall i :: 2 <= i < 10 ==> IsWordChar(r[i])
    ensures (forall i :: 0 <= i < |name| ==> IsWordChar(name[i])) ==> forall i :: 1 <= i < |r| ==> r[i] != '$'
  {
    if name == "user_request" then UserRequestRef
    else
      var r := StatePrefix + name + "}";
      assert forall i :: 0 <= i < |StatePrefix| ==> r[i] == StatePrefix[i];
      assert forall i :: 0 <= i < |name| ==> r[|StatePrefix| + i] == name[i];
      r
  }

  /** Every replacement is a `${workflow.…}` reference. */
  lemma ReplacementIsWorkflowReference(name: string)
    ensures Replacement(name)[..11] == "${workflow."
  {
  }

  /** The global replace: matches are found left to right, and scanning resumes after each match. */
  function Rewrite(s: string): (r: string)
    ensures |r| >= |s|
    ensures |s| > 0 ==> |r| > 0 && r[0] == s[0]
    decreases |s|
  {
    if |s| == 0 then ""
    else match RefAt(s)
      case Some(w) => Replacement(s[2..2 + w]) + Rewrite(s[3 + w..])
      case None => [s[0]] + Rewrite(s[1..])
  }

  // ---------------------------------------------------------------------------
  // Lemmas
  // ---------------------------------------------------------------------------

  /** One step of the scan where no reference starts. */
  lemma RewriteStep(s: string)
    requires |s| > 0 && RefAt(s).None?
    ensures Rewrite(s) == [s[0]] + Rewrite(s[1..])
  {
  }

  /** A first character other than `$` is copied and the scan moves on by one. */
  lemma CopyOne(u: string)
    requires |u| > 0 && u[0] != '$'
    ensures Rewrite(u) == [u[0]] + Rewrite(u[1..])
  {
    assert RefAt(u).None?;
    RewriteStep(u);
  }

  /** Putting the first character back in front of the rest of a prefix. */
  lemma ConsPrefix(u: string, k: nat, x: string)
    requires 0 < k <= |u|
    ensures [u[0]] + (u[1..][..k - 1] + x) == u[..k] + x
    ensures u[1..][k - 1..] == u[k..]
  {
    Associate([u[0]], u[1..][..k - 1], x);
    assert [u[0]] + u[1..][..k - 1] == u[..k];
  }

  /** A prefix without `$` is copied unchanged. */
  lemma {:induction false} RewriteCopiesPrefix(u: string, k: nat)
    requires k <= |u|
    requires forall i :: 0 <= i < k ==> u[i] != '$'
    ensures Rewrite(u) == u[..k] + Rewrite(u[k..])
    decreases k
  {
    if k > 0 {
      CopyOne(u);
      assert forall i :: 0 <= i < k - 1 ==> u[1..][i] != '$' by {
        forall i | 0 <= i < k - 1 ensures u[1..][i] != '$' { assert u[1..][i] == u[i + 1]; }
      }
      RewriteCopiesPrefix(u[1..], k - 1);
      ConsPrefix(u, k, Rewrite(u[k..]));
    }
  }

  /** Whether a reference starts at position 0 depends only on the characters up to the end of its word run. */
  lemma RefAtSameHead(a: string, b: string)
    requires |a| >= 2
    requires var w := WordRun(a[2..]);
             && |b| >= 2 + w && b[..2 + w] == a[..2 + w]
             && (|a| > 2 + w <==> |b| > 2 + w)
             && (|a| > 2 + w ==> b[2 + w] == a[2 + w])
    ensures RefAt(a) == RefAt(b)
  {
    var w := WordRun(a[2..]);
    assert a[0] == b[0] && a[1] == b[1];
    forall i | 0 <= i < w ensures IsWordChar(b[2..][i]) {
      assert b[2..][i] == b[2 + i] == a[2 + i] == a[2..][i];
    }
    WordRunIs(b[2..], w);
  }

  /** The output of a replacement never starts a new match. */
  lemma ReplacementFixed(name: string, t: string)
    requires forall i :: 0 <= i < |name| ==> IsWordChar(name[i])
    requires Fixed(t)
    ensures Fixed(Replacement(name) + t)
  {
    var r := Replacement(name);
    var o := r + t;
    forall i | 0 <= i < |o| ensures NoRefAt(o, i) {
      if i >= |r| {
        assert o[i..] == t[i - |r|..];
        assert NoRefAt(t, i - |r|);
      } else if i > 0 {
        assert o[i..][0] == r[i];
      } else {
        var tail := o[2..];
        assert forall j :: 0 <= j < 8 ==> IsWordChar(tail[j]) by {
          forall j | 0 <= j < 8 ensures IsWordChar(tail[j]) { assert tail[j] == r[j + 2]; }
        }
        assert tail[8] == r[10];
        WordRunIs(tail, 8);
      }
    }
  }

  /** One step of the scan where a reference starts. */
  lemma RewriteAtRef(s: string, w: nat)
    requires RefAt(s) == Some(w)
    ensures Rewrite(s) == Replacement(s[2..2 + w]) + Rewrite(s[3 + w..])
  {
    assert |s| > 0;
  }

  /** A matched name consists of word characters. */
  lemma MatchedNameIsWord(s: string, w: nat, name: string)
    requires RefAt(s) == Some(w) && name == s[2..2 + w]
    ensures forall i :: 0 <= i < |name| ==> IsWordChar(name[i])
  {
    forall i | 0 <= i < |name| ensures IsWordChar(name[i]) { assert name[i] == s[2 + i]; }
  }

  /** A replaced reference in front of a fixed rewrite leaves it fixed. */
  lemma ReplacedHeadFixed(s: string, w: nat)
    requires RefAt(s) == Some(w)
    requires Fixed(Rewrite(s[3 + w..]))
    ensures Fixed(Rewrite(s))
  {
    RewriteAtRef(s, w);
    MatchedNameIsWord(s, w, s[2..2 + w]);
    ReplacementFixed(s[2..2 + w], Rewrite(s[3 + w..]));
  }

  /** After the rewrite no reference is left to match. */
  lemma {:induction false} RewriteFixed(s: string)
    ensures Fixed(Rewrite(s))
    decreases |s|
  {
    if |s| > 0 {
      match RefAt(s)
      case Some(w) =>
        RewriteFixed(s[3 + w..]);
        ReplacedHeadFixed(s, w);
      case None =>
        RewriteFixed(s[1..]);
        RewriteStep(s);
        if |s| >= 2 {
          CopiedHeadFixed(s);
        } else {
          assert Rewrite(s) == s;
        }
    }
  }

  /** A fixed text stays fixed behind a character that starts no reference. */
  lemma ConsFixed(c: char, t: string)
    requires Fixed(t) && RefAt([c] + t).None?
    ensures Fixed([c] + t)
  {
    var o := [c] + t;
    forall i | 0 <= i < |o| ensures NoRefAt(o, i) {
      if i > 0 {
        assert o[i..] == t[i - 1..];
        assert NoRefAt(t, i - 1);
      } else {
        assert o[0..] == o;
      }
    }
  }

  /** Where no reference starts, copying the first character in front of a fixed rewrite keeps it fixed. */
  lemma CopiedHeadFixed(s: string)
    requires |s| >= 2 && RefAt(s).None?
    requires Fixed(Rewrite(s[1..]))
    ensures Fixed([s[0]] + Rewrite(s[1..]))
  {
    RewriteKeepsHead(s);
    ConsFixed(s[0], Rewrite(s[1..]));
  }

  /** Where no reference starts at 0, the rewrite keeps the head that decides whether one does. */
  lemma RewriteKeepsHead(s: string)
    requires |s| >= 2 && RefAt(s).None?
    ensures RefAt([s[0]] + Rewrite(s[1..])).None?
  {
    if s[0] == '$' && s[1] == '{' {
      OpenBraceKeepsHead(s);
    } else {
      var o := [s[0]] + Rewrite(s[1..]);
      assert o[0] == s[0];
      assert o[1] == Rewrite(s[1..])[0] == s[1..][0];
    }
  }

  /** After `${`, the scan copies the word run unchanged. */
  lemma OpenBraceCopiesRun(s: string)
    requires |s| >= 2 && s[0] == '$' && s[1] == '{'
    ensures var w := WordRun(s[2..]);
            [s[0]] + Rewrite(s[1..]) == s[..2 + w] + Rewrite(s[2 + w..])
  {
    var w := WordRun(s[2..]);
    var u := s[1..];
    RunHasNoDollar(s);
    RewriteCopiesPrefix(u, 1 + w);
    ConsPrefix(s, 2 + w, Rewrite(s[2 + w..]));
    assert u[1 + w..] == s[2 + w..];
    assert Rewrite(u) == u[..1 + w] + Rewrite(s[2 + w..]);
  }

  /** Behind `$`, the brace and the word run hold no `$`. */
  lemma RunHasNoDollar(s: string)
    requires |s| >= 2 && s[1] == '{'
    ensures 1 + WordRun(s[2..]) <= |s[1..]|
    ensures forall i :: 0 <= i < 1 + WordRun(s[2..]) ==> s[1..][i] != '$'
  {
    var w := WordRun(s[2..]);
    forall i | 0 <= i < 1 + w ensures s[1..][i] != '$' {
      if i > 0 { assert s[1..][i] == s[2..][i - 1]; }
    }
  }

  /** Keeping `s` up to its word run and the character after it keeps the answer of `RefAt`. */
  lemma SameRunSameRef(s: string, rest: string)
    requires |s| >= 2
    requires var w := WordRun(s[2..]);
             && (|s| > 2 + w <==> |rest| > 0)
             && (|s| > 2 + w ==> rest[0] == s[2 + w])
    ensures RefAt(s) == RefAt(s[..2 + WordRun(s[2..])] + rest)
  {
    var w := WordRun(s[2..]);
    var o := s[..2 + w] + rest;
    assert o[..2 + w] == s[..2 + w];
    if |s| > 2 + w {
      assert o[2 + w] == rest[0];
    }
    RefAtSameHead(s, o);
  }

  /** After `${`, the word run and the character ending it are copied unchanged. */
  lemma OpenBraceKeepsHead(s: string)
    requires |s| >= 2 && s[0] == '$' && s[1] == '{'
    ensures RefAt(s) == RefAt([s[0]] + Rewrite(s[1..]))
  {
    var w := WordRun(s[2..]);
    var x := s[2 + w..];
    OpenBraceCopiesRun(s);
    assert |s| > 2 + w <==> |x| > 0;
    if |x| > 0 {
      assert x[0] == s[2 + w];
    }
    SameRunSameRef(s, Rewrite(x));
  }

  /** Text without references is left unchanged. */
  lemma {:induction false} FixedUnchanged(s: string)
    requires Fixed(s)
    ensures Rewrite(s) == s
    decreases |s|
  {
    if |s| > 0 {
      assert NoRefAt(s, 0);
      assert s[0..] == s;
      assert Fixed(s[1..]) by {
        forall i | 0 <= i < |s[1..]| ensures NoRefAt(s[1..], i) {
          assert s[1..][i..] == s[i + 1..];
          assert NoRefAt(s, i + 1);
        }
      }
      FixedUnchanged(s[1..]);
    }
  }

  /** Every reference found makes the text strictly longer. */
  lemma {:induction false} RewriteGrows(s: string)
    requires !Fixed(s)
    ensures |Rewrite(s)| > |s|
    decreases |s|
  {
    var i :| 0 <= i < |s| && !NoRefAt(s, i);
    if RefAt(s).None? {
      assert i != 0 by { assert s[0..] == s; }
      assert s[1..][i - 1..] == s[i..];
      assert !NoRefAt(s[1..], i - 1);
      RewriteGrows(s[1..]);
    }
  }

  /** The rewrite changes a text exactly when it contains a reference. */
  lemma RewriteIdentityIffFixed(s: string)
    ensures Rewrite(s) == s <==> Fixed(s)
  {
    if Fixed(s) { FixedUnchanged(s); } else { RewriteGrows(s); }
  }

  /** A second pass changes nothing. */
  lemma RewriteIdempotent(s: string)
    ensures Rewrite(Rewrite(s)) == Rewrite(s)
  {
    RewriteFixed(s);
    FixedUnchanged(Rewrite(s));
  }

  /** A `${name}` at the head is replaced and the scan resumes after its `}`. */
  lemma RewriteReference(name: string, rest: string)
    requires 1 <= |name| && forall i :: 0 <= i < |name| ==> IsWordChar(name[i])
    ensures Rewrite("${" + name + "}" + rest) == Replacement(name) + Rewrite(rest)
  {
    var s := "${" + name + "}" + rest;
    forall i | 0 <= i < |name| ensures IsWordChar(s[2..][i]) {
      assert s[2..][i] == name[i];
    }
    WordRunIs(s[2..], |name|);
    assert RefAt(s) == Some(|name|);
    assert s[2..2 + |name|] == name;
    assert s[3 + |name|..] == rest;
  }

  /** `${user_request}` becomes the workflow input's user request. */
  lemma RewriteUserRequest(rest: string)
    ensures Rewrite("${" + "user_request" + "}" + rest) == "${workflow.input.user_request}" + Rewrite(rest)
  {
    RewriteReference("user_request", rest);
  }

  /** Any other `${name}` becomes a reference into the workflow state. */
  lemma RewriteStateName(name: string, rest: string)
    requires 1 <= |name| && forall i :: 0 <= i < |name| ==> IsWordChar(name[i])
    requires name != "user_request"
    ensures Rewrite("${" + name + "}" + rest) == "${workflow.state." + name + "}" + Rewrite(rest)
  {
    RewriteReference(name, rest);
  }

  /** Text before the first `$` is copied unchanged. */
  lemma RewritePlain(plain: string, rest: string)
    requires forall i :: 0 <= i < |plain| ==> plain[i] != '$'
    ensures Rewrite(plain + rest) == plain + Rewrite(rest)
  {
    var s := plain + rest;
    RewriteCopiesPrefix(s, |plain|);
    assert s[..|plain|] == plain && s[|plain|..] == rest;
  }

  /** Text without a `$` holds no reference. */
  lemma NoDollarFixed(s: string)
    requires forall i :: 0 <= i < |s| ==> s[i] != '$'
    ensures Fixed(s)
  {
    forall i | 0 <= i < |s| ensures NoRefAt(s, i) {
      assert s[i..][0] == s[i];
    }
  }

  /** A dotted reference `${name.path}` is not matched: the name must be followed directly by `}`. */
  lemma DottedReferenceUntouched(name: string, path: string)
    requires 1 <= |name| && forall i :: 0 <= i < |name| ==> IsWordChar(name[i])
    requires forall i :: 0 <= i < |path| ==> path[i] != '$'
    ensures Fixed("${" + name + "." + path)
  {
    var s := "${" + name + "." + path;
    var t := s[1..];
    forall i | 0 <= i < |t| ensures t[i] != '$' {
      if i == 0 {
      } else if i <= |name| {
        assert t[i] == name[i - 1];
      } else if i > |name| + 1 {
        assert t[i] == path[i - |name| - 2];
      }
    }
    NoDollarFixed(t);
    forall i | 0 <= i < |name| ensures IsWordChar(s[2..][i]) {
      assert s[2..][i] == name[i];
    }
    WordRunIs(s[2..], |name|);
    forall i | 0 <= i < |s| ensures NoRefAt(s, i) {
      if i == 0 {
        assert s[0..] == s;
      } else {
        assert s[i..] == t[i - 1..];
      }
    }
  }

  // ---------------------------------------------------------------------------
  // processAgentInstructions
  // ---------------------------------------------------------------------------

  const JsonSuffix := "\n\nIMPORTANT: You must respond with a valid JSON object that matches the specified schema exactly. Do not include any text outside the JSON object."

  /** The agent asks for JSON output and has a schema for it. */
  predicate JsonRequested(c: Option<AgentConfig>) {
    c.Some? && c.value.outputFormat == Some(Json) && c.value.jsonSchema.Some?
  }

  /** `processAgentInstructions`: empty text is returned as is; otherwise rewrite, and add the directive if requested. */
  function ProcessAgentInstructions(instructions: string, c: Option<AgentConfig>): (r: string)
    ensures instructions == "" ==> r == ""
    ensures instructions != "" ==> |r| >= |Rewrite(instructions)| && r[..|Rewrite(instructions)|] == Rewrite(instructions)
    ensures instructions != "" ==> (JsonRequested(c) <==> |r| > |Rewrite(instructions)|)
    ensures instructions != "" && JsonRequested(c) ==> r[|Rewrite(instructions)|..] == JsonSuffix
  {
    if instructions == "" then instructions
    else Rewrite(instructions) + (if JsonRequested(c) then JsonSuffix else "")
  }

  /** The rewritten part of the output holds no reference. */
  lemma ProcessedHasNoReferences(instructions: string, c: Option<AgentConfig>)
    requires instructions != ""
    ensures Fixed(ProcessAgentInstructions(instructions, c)[..|Rewrite(instructions)|])
  {
    RewriteFixed(instructions);
  }
}
