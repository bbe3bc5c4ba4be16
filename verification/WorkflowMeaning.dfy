/** What references, conditions and arguments mean, stated without the functions that compute it. */
module WorkflowMeaning {
  import opened Common
  import opened WorkflowSteps
  import opened WorkflowExecutor
  import opened WorkflowTheorems

  // ---------------------------------------------------------------------------------------------
  // References

  /** The keys of the path lead from the scope to the value. */
  ghost predicate LeadsTo(context: Context, scope: string, path: seq<string>, v: Value) {
    scope in context && exists trail :: IsTrail(context[scope], path, trail, v)
  }

  /** The value of a reference: where its keys lead, or null if they lead nowhere else. */
  ghost predicate Denotes(context: Context, scope: string, path: seq<string>, v: Value) {
    if v.Null? then forall w :: LeadsTo(context, scope, path, w) ==> w.Null? else LeadsTo(context, scope, path, v)
  }

  /** Every reference has exactly one value, and that is the one it resolves to. */
  lemma ResolvesExactly(context: Context, scope: string, path: seq<string>, v: Value)
    ensures Denotes(context, scope, path, v) <==> ResolveRef(scope, path, context) == v
  {
    var r := ResolveRef(scope, path, context);
    if scope in context {
      forall w: Value | !w.Null? ensures LeadsTo(context, scope, path, w) <==> r == w {
        ResolvesAlongTrail(context[scope], path, w);
      }
    }
    if v.Null? && !r.Null? {
      assert LeadsTo(context, scope, path, r);
    }
  }

  // ---------------------------------------------------------------------------------------------
  // Conditions

  /** What counts as false: null, false, zero, and empty texts, lists and mappings. */
  predicate Falsy(v: Value) {
    v in {Null, Bool(false), Number(0.0), Text(""), Listing([]), Mapping(map[])}
  }

  /** The condition lets the step run. */
  ghost predicate Allows(host: Host, c: Condition, context: Context) {
    match c
    case NoCondition => true
    case Equals(scope, path, text) => exists v :: Denotes(context, scope, path, v) && host.show(v) == text
    case Differs(scope, path, text) => exists v :: Denotes(context, scope, path, v) && host.show(v) != text
    case Holds(scope, path) => exists v :: Denotes(context, scope, path, v) && !Falsy(v)
    case Plain(blank) => !blank
  }

  lemma TruthyExactly(v: Value)
    ensures Truthy(v) <==> !Falsy(v)
  {
  }

  lemma ConditionMeans(host: Host, c: Condition, context: Context)
    ensures EvaluateCondition(host, c, context) <==> Allows(host, c, context)
  {
    if c.Equals? || c.Differs? || c.Holds? {
      var r := ResolveRef(c.scope, c.path, context);
      forall v ensures Denotes(context, c.scope, c.path, v) <==> v == r {
        ResolvesExactly(context, c.scope, c.path, v);
      }
      TruthyExactly(r);
    }
  }

  // ---------------------------------------------------------------------------------------------
  // Texts

  /** Python's `split(".")`. */
  function SplitDots(s: string): (parts: seq<string>)
    ensures parts != []
  {
    if s == "" then [""]
    else
      var rest := SplitDots(s[1..]);
      if s[0] == '.' then [""] + rest else [[s[0]] + rest[0]] + rest[1..]
  }

  /** What splitting can yield: at least one part, none with a dot. */
  predicate IsPath(path: seq<string>) {
    path != [] && forall i :: 0 <= i < |path| ==> '.' !in path[i]
  }

  lemma {:induction false} SplitOnePart(s: string)
    requires '.' !in s
    ensures SplitDots(s) == [s]
  {
    if s == "" {
    } else {
      SplitOnePart(s[1..]);
      assert [s[0]] + s[1..] == s;
    }
  }

  lemma {:induction false} SplitFirstPart(s: string, rest: string)
    requires '.' !in s
    ensures SplitDots(s + "." + rest) == [s] + SplitDots(rest)
  {
    var all := s + "." + rest;
    if s == "" {
      assert all[1..] == rest;
    } else {
      assert all[1..] == s[1..] + "." + rest;
      SplitFirstPart(s[1..], rest);
      assert [s[0]] + s[1..] == s;
    }
  }

  /** Joining a path with dots and splitting it again gives the path. */
  lemma {:induction false} JoinSplits(path: seq<string>)
    requires IsPath(path)
    ensures SplitDots(Join(path)) == path
  {
    if |path| == 1 {
      SplitOnePart(path[0]);
    } else {
      JoinSplits(path[1..]);
      SplitFirstPart(path[0], Join(path[1..]));
    }
  }

  /** A text is determined by its parts. */
  lemma {:induction false} SplitJoins(s: string)
    ensures Join(SplitDots(s)) == s
  {
    if s == "" {
    } else {
      var rest := SplitDots(s[1..]);
      SplitJoins(s[1..]);
      if s[0] == '.' {
        assert ([""] + rest)[1..] == rest;
        assert "" + "." + s[1..] == s;
      } else {
        var parts := [[s[0]] + rest[0]] + rest[1..];
        assert parts[1..] == rest[1..];
        if |rest| == 1 {
          assert [s[0]] + rest[0] == s;
        } else {
          assert [s[0]] + rest[0] + "." + Join(rest[1..]) == [s[0]] + (rest[0] + "." + Join(rest[1..]));
        }
      }
    }
  }

  /** The reference as it was written. */
  ghost predicate IsWritten(scope: string, path: seq<string>, text: string) {
    exists p :: text == "${" + scope + "." + p + "}" && SplitDots(p) == path
  }

  /** What one piece of a text becomes. */
  ghost predicate PieceBecomes(host: Host, context: Context, t: Token, piece: string) {
    match t
    case Literal(text) => piece == text
    case Ref(scope, path) =>
      exists v :: Denotes(context, scope, path, v)
               && if v.Null? then IsWritten(scope, path, piece) else piece == host.show(v)
  }

  function Concat(pieces: seq<string>): string {
    if pieces == [] then "" else pieces[0] + Concat(pieces[1..])
  }

  /** A text that is one whole reference becomes its value, if it has one; any other becomes its pieces in order. */
  ghost predicate TextBecomes(host: Host, context: Context, tokens: seq<Token>, v: Value) {
    if |tokens| == 1 && tokens[0].Ref? && !Denotes(context, tokens[0].scope, tokens[0].path, Null) then
      Denotes(context, tokens[0].scope, tokens[0].path, v)
    else
      exists pieces: seq<string> ::
        && |pieces| == |tokens| && v == Text(Concat(pieces))
        && forall i :: 0 <= i < |tokens| ==> PieceBecomes(host, context, tokens[i], pieces[i])
  }

  // ---------------------------------------------------------------------------------------------
  // Arguments

  /** What an argument becomes: raw values stay; mappings keep their keys and lists their length and order. */
  ghost predicate Becomes(host: Host, context: Context, arg: Arg, v: Value) {
    match arg
    case Raw(w) => v == w
    case Template(tokens) => TextBecomes(host, context, tokens, v)
    case Nested(fields) =>
      && v.Mapping? && v.fields.Keys == fields.Keys
      && forall k :: k in fields ==> Becomes(host, context, fields[k], v.fields[k])
    case Elements(items) =>
      && v.Listing? && |v.items| == |items|
      && forall i :: 0 <= i < |items| ==>
           match items[i]
           case RawElement(w) => v.items[i] == w
           case TextElement(tokens) => TextBecomes(host, context, tokens, v.items[i])
  }

  ghost predicate ArgsBecome(host: Host, context: Context, args: map<string, Arg>, values: map<string, Value>) {
    values.Keys == args.Keys && forall k :: k in args ==> Becomes(host, context, args[k], values[k])
  }

  /** The references of a text are written with paths that splitting can yield. */
  ghost predicate WrittenTokens(tokens: seq<Token>) {
    forall i :: 0 <= i < |tokens| && tokens[i].Ref? ==> IsPath(tokens[i].path)
  }

  ghost predicate WrittenArg(arg: Arg) {
    match arg
    case Raw(_) => true
    case Template(tokens) => WrittenTokens(tokens)
    case Nested(fields) => forall k :: k in fields ==> WrittenArg(fields[k])
    case Elements(items) => forall i :: 0 <= i < |items| && items[i].TextElement? ==> WrittenTokens(items[i].tokens)
  }

  /** The pieces that substitution puts together. */
  function Pieces(host: Host, tokens: seq<Token>, context: Context): (pieces: seq<string>)
    ensures |pieces| == |tokens|
  {
    seq(|tokens|, i requires 0 <= i < |tokens| => PieceOf(host, tokens[i], context))
  }

  function PieceOf(host: Host, t: Token, context: Context): string {
    match t
    case Literal(text) => text
    case Ref(scope, path) =>
      var v := ResolveRef(scope, path, context);
      if v.Null? then "${" + scope + "." + Join(path) + "}" else host.show(v)
  }

  lemma {:induction false} SubstituteConcats(host: Host, tokens: seq<Token>, context: Context)
    ensures Substitute(host, tokens, context) == Concat(Pieces(host, tokens, context))
  {
    if tokens == [] {
    } else {
      SubstituteConcats(host, tokens[1..], context);
      assert Pieces(host, tokens, context)[1..] == Pieces(host, tokens[1..], context);
    }
  }

  lemma PieceExactly(host: Host, t: Token, context: Context, piece: string)
    requires t.Ref? ==> IsPath(t.path)
    ensures PieceBecomes(host, context, t, piece) <==> piece == PieceOf(host, t, context)
  {
    if t.Ref? {
      var r := ResolveRef(t.scope, t.path, context);
      forall v ensures Denotes(context, t.scope, t.path, v) <==> v == r {
        ResolvesExactly(context, t.scope, t.path, v);
      }
      JoinSplits(t.path);
      if IsWritten(t.scope, t.path, piece) {
        var p :| piece == "${" + t.scope + "." + p + "}" && SplitDots(p) == t.path;
        SplitJoins(p);
      }
    }
  }

  lemma TextExactly(host: Host, tokens: seq<Token>, context: Context, v: Value)
    requires WrittenTokens(tokens)
    ensures TextBecomes(host, context, tokens, v) <==> InterpolateString(host, tokens, context) == v
  {
    if |tokens| == 1 && tokens[0].Ref? {
      ResolvesExactly(context, tokens[0].scope, tokens[0].path, Null);
      ResolvesExactly(context, tokens[0].scope, tokens[0].path, v);
    }
    SubstituteConcats(host, tokens, context);
    var mine := Pieces(host, tokens, context);
    forall pieces: seq<string> | |pieces| == |tokens|
      ensures (forall i :: 0 <= i < |tokens| ==> PieceBecomes(host, context, tokens[i], pieces[i])) <==> pieces == mine
    {
      forall i | 0 <= i < |tokens|
        ensures PieceBecomes(host, context, tokens[i], pieces[i]) <==> pieces[i] == mine[i]
      {
        PieceExactly(host, tokens[i], context, pieces[i]);
      }
    }
  }

  /** An argument becomes one value, the interpolated one. */
  lemma {:induction false} ArgExactly(host: Host, arg: Arg, context: Context, v: Value)
    requires WrittenArg(arg)
    ensures Becomes(host, context, arg, v) <==> InterpolateArg(host, arg, context) == v
  {
    var r := InterpolateArg(host, arg, context);
    match arg
    case Raw(_) =>
    case Template(tokens) => TextExactly(host, tokens, context, v);
    case Nested(fields) =>
      if v.Mapping? && v.fields.Keys == fields.Keys {
        forall k | k in fields ensures Becomes(host, context, fields[k], v.fields[k]) <==> r.fields[k] == v.fields[k] {
          ArgExactly(host, fields[k], context, v.fields[k]);
        }
      }
    case Elements(items) =>
      if v.Listing? && |v.items| == |items| {
        forall i | 0 <= i < |items| && items[i].TextElement?
          ensures TextBecomes(host, context, items[i].tokens, v.items[i]) <==> r.items[i] == v.items[i]
        {
          TextExactly(host, items[i].tokens, context, v.items[i]);
        }
        assert r.items == v.items <==> forall i :: 0 <= i < |items| ==> r.items[i] == v.items[i];
      }
  }

  ghost predicate WrittenStep(step: Step) {
    forall k :: k in step.args ==> WrittenArg(step.args[k])
  }

  lemma ArgsExactly(host: Host, args: map<string, Arg>, context: Context, values: map<string, Value>)
    requires forall k :: k in args ==> WrittenArg(args[k])
    ensures ArgsBecome(host, context, args, values) <==> Interpolate(host, args, context) == values
  {
    var r := Interpolate(host, args, context);
    if values.Keys == args.Keys {
      forall k | k in args ensures Becomes(host, context, args[k], values[k]) <==> r[k] == values[k] {
        ArgExactly(host, args[k], context, values[k]);
      }
    }
  }

  // ---------------------------------------------------------------------------------------------
  // Calls

  /** The calls are the host's answers to the step, its tool and these arguments, at one attempt after another. */
  ghost predicate Answers(host: Host, step: Step, args: map<string, Value>, attempt: nat, calls: seq<Outcome>) {
    forall k :: 0 <= k < |calls| ==> calls[k] == host.invoke(step.id, step.tool, args, attempt + k)
  }

  lemma OneMoreAnswer(host: Host, step: Step, args: map<string, Value>, attempt: nat, o: Outcome, rest: seq<Outcome>)
    requires o == host.invoke(step.id, step.tool, args, attempt) && Answers(host, step, args, attempt + 1, rest)
    ensures Answers(host, step, args, attempt, [o] + rest)
  {
    var calls := [o] + rest;
    forall k | 0 <= k < |calls| ensures calls[k] == host.invoke(step.id, step.tool, args, attempt + k) {
      if k > 0 {
        var j := k - 1;
        assert calls[k] == rest[j] == host.invoke(step.id, step.tool, args, attempt + 1 + j);
        assert attempt + 1 + j == attempt + k;
      }
    }
  }

  lemma {:induction false} AttemptsAnswered(
    host: Host, step: Step, args: map<string, Value>, attempt: nat, lastError: Option<string>)
    ensures Answers(host, step, args, attempt, RunAttempts(host, step, args, attempt, lastError).calls)
    decreases 1 + step.retry - attempt
  {
    if attempt >= 1 + step.retry {
    } else {
      var o := host.invoke(step.id, step.tool, args, attempt);
      if o.Raised? {
        AttemptsAnswered(host, step, args, attempt + 1, Some(o.error));
        OneMoreAnswer(host, step, args, attempt, o, RunAttempts(host, step, args, attempt + 1, Some(o.error)).calls);
      } else {
        OneMoreAnswer(host, step, args, attempt, o, []);
        assert [o] + [] == [o];
      }
    }
  }

  /** Every call of a step asks its own tool with the values its arguments become, attempt after attempt. */
  ghost predicate CallsMatch(host: Host, step: Step, context: Context, calls: seq<Outcome>) {
    exists args :: ArgsBecome(host, context, step.args, args) && Answers(host, step, args, 0, calls)
  }

  lemma StepCalls(host: Host, step: Step, st: ExecState)
    requires WrittenStep(step)
    ensures CallsMatch(host, step, st.context, RunStep(host, step, st).calls)
  {
    var args := Interpolate(host, step.args, st.context);
    ArgsExactly(host, step.args, st.context, args);
    AttemptsAnswered(host, step, args, 0, None);
    assert Answers(host, step, args, 0, RunStep(host, step, st).calls);
  }
}
