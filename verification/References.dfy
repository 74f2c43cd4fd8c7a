/** What references mean, stated without the matcher and the resolver: which texts spell a reference, which value it
    reads, and what the arguments of a step become. The code's matching and resolving is proved to be exactly that. */
module References {
  import opened Wrappers
  import opened Text
  import opened Conditions
  import opened Feasibility
  import opened Store
  import opened Execution

  // ------------------------------------------------------------ which texts spell a reference

  function FieldText(field: Option<string>): string { if field.None? then "" else "." + field.value }

  function HeadText(step: Option<nat>, digits: string): string {
    if step.None? then "$trigger" else "$step_" + digits
  }

  /** "$trigger", or "$step_" and the decimal digits of the number, then perhaps "." and an identifier, then perhaps
      one line break. */
  predicate SpellsAs(text: string, r: Ref, digits: string, end: string) {
    ValidRef(r) && digits != "" && All(digits, IsDigit) && (end == "" || end == "\n") &&
    (r.step.Some? ==> DecimalValue(digits) == r.step.value) &&
    text == HeadText(r.step, digits) + (FieldText(r.field) + end)
  }

  ghost predicate Spells(text: string, r: Ref) { exists digits, end :: SpellsAs(text, r, digits, end) }

  lemma HeadEndOfHead(step: Option<nat>, digits: string, tail: string)
    requires digits != "" && All(digits, IsDigit) && (tail == "" || !IsDigit(tail[0]))
    ensures var head := HeadText(step, digits);
            HeadEnd(head + tail) == |head| && ("$step_" <= head + tail <==> step.Some?)
  {
    var head := HeadText(step, digits);
    if step.None? {
      assert (head + tail)[1] == 't';
      assert (head + tail)[..8] == "$trigger";
    } else {
      assert (head + tail)[..6] == "$step_";
      assert (head + tail)[6..] == digits + tail;
      SpanOfRun(digits, tail, IsDigit);
    }
  }

  lemma FieldLenOfTail(field: Option<string>, end: string)
    requires (field.Some? ==> ValidField(field.value)) && (end == "" || end == "\n")
    ensures FieldLen(FieldText(field) + end) == |FieldText(field)|
  {
    if field.Some? {
      FieldLenOfText(field.value, end);
      assert "." + field.value + end == FieldText(field) + end;
    }
  }

  lemma CutTwice(a: string, b: string, c: string)
    ensures (a + (b + c))[|a|..] == b + c && (a + (b + c))[|a| + |b|..] == c
    ensures (a + (b + c))[|a|..|a| + |b|] == b && (a + (b + c))[..|a|] == a
  {
  }

  lemma SpelledEnds(text: string, r: Ref, digits: string, end: string)
    requires SpellsAs(text, r, digits, end)
    ensures var h := |HeadText(r.step, digits)|;
            HeadEnd(text) == h && RefEnd(text) == h + |FieldText(r.field)| && ("$step_" <= text <==> r.step.Some?)
  {
    var head, field := HeadText(r.step, digits), FieldText(r.field);
    assert field + end == "" || !IsDigit((field + end)[0]);
    HeadEndOfHead(r.step, digits, field + end);
    FieldLenOfTail(r.field, end);
    CutTwice(head, field, end);
  }

  lemma SpelledParts(text: string, r: Ref, digits: string, end: string)
    requires SpellsAs(text, r, digits, end)
    ensures var h, n := |HeadText(r.step, digits)|, |HeadText(r.step, digits)| + |FieldText(r.field)|;
            text[n..] == end && (r.step.Some? ==> text[6..h] == digits) &&
            (r.field.Some? ==> n > h && text[h+1..n] == r.field.value) && (r.field.None? ==> n == h)
  {
    var head, field := HeadText(r.step, digits), FieldText(r.field);
    CutTwice(head, field, end);
    if r.step.Some? { assert text[6..|head|] == head[6..]; }
    if r.field.Some? { assert text[|head|+1..|head|+|field|] == field[1..]; }
  }

  lemma SpelledIsMatched(text: string, r: Ref, digits: string, end: string)
    requires SpellsAs(text, r, digits, end)
    ensures MatchRef(text) == Some(r)
  {
    SpelledEnds(text, r, digits, end);
    SpelledParts(text, r, digits, end);
  }

  lemma MatchedIsSpelled(text: string) returns (digits: string, end: string)
    requires MatchRef(text).Some?
    ensures SpellsAs(text, MatchRef(text).value, digits, end)
  {
    var h, n := HeadEnd(text), RefEnd(text);
    end := text[n..];
    digits := if "$step_" <= text then text[6..h] else "0";
    var r := MatchRef(text).value;
    MatchedHead(text, digits);
    MatchedField(text);
    assert text == text[..h] + (text[h..n] + text[n..]);
  }

  lemma MatchedHead(text: string, digits: string)
    requires MatchRef(text).Some? && digits == if "$step_" <= text then text[6..HeadEnd(text)] else "0"
    ensures digits != "" && All(digits, IsDigit)
    ensures text[..HeadEnd(text)] == HeadText(MatchRef(text).value.step, digits)
  {
    var h := HeadEnd(text);
    if "$step_" <= text {
      assert text[6..h] == text[6..][..h-6];
      assert text[..h] == text[..6] + text[6..h];
    }
  }

  lemma MatchedField(text: string)
    requires MatchRef(text).Some?
    ensures ValidRef(MatchRef(text).value)
    ensures text[HeadEnd(text)..RefEnd(text)] == FieldText(MatchRef(text).value.field)
  {
    var h, n := HeadEnd(text), RefEnd(text);
    var t := text[h..];
    if n > h {
      assert text[h+1..n] == t[1..n-h];
      assert text[h..n] == [t[0]] + text[h+1..n];
      assert text[h+1..n][0] == t[1];
    }
  }

  /** The pattern matches exactly the texts that spell a reference, and finds the one they spell. */
  lemma MatchesExactly(text: string, r: Ref)
    ensures MatchRef(text) == Some(r) <==> Spells(text, r)
  {
    if Spells(text, r) {
      var digits, end :| SpellsAs(text, r, digits, end);
      SpelledIsMatched(text, r, digits, end);
    }
    if MatchRef(text) == Some(r) {
      var digits, end := MatchedIsSpelled(text);
    }
  }

  // ------------------------------------------------------------ which value a reference reads

  /** `x` is the field, or without a field the whole, of the value `src`. */
  predicate Picks(src: Value, field: Option<string>, x: Value) {
    if field.None? then x == src else src.Obj? && field.value in src.fields && x == src.fields[field.value]
  }

  /** The trigger payload, or the result of the step, if it has one that is not `None`. */
  predicate Source(step: Option<nat>, trigger: Trigger, results: Results, src: Value) {
    if step.None? then src == Obj(trigger) else step.value in results && results[step.value] == src && src != Null
  }

  /** The text refers to a source, and `x` is what it reads there. */
  ghost predicate Reads(text: string, trigger: Trigger, results: Results, x: Value) {
    exists r, src :: Spells(text, r) && Source(r.step, trigger, results, src) && Picks(src, r.field, x)
  }

  /** Why a text reads nothing. */
  ghost predicate Refused(text: string, trigger: Trigger, results: Results, cause: Cause) {
    match cause
    case UnresolvableRef(t) => t == text && forall r :: !Spells(text, r)
    case StepNotRun(t) =>
      t == text && exists r :: Spells(text, r) && forall src :: !Source(r.step, trigger, results, src)
    case NotAddressable(t) =>
      t == text && exists r, src :: Spells(text, r) && Source(r.step, trigger, results, src) && r.field.Some? && !src.Obj?
    case FieldMissing(t) =>
      t == text && exists r, src :: Spells(text, r) && Source(r.step, trigger, results, src) &&
                                    r.field.Some? && src.Obj? && r.field.value !in src.fields
    case _ => false
  }

  lemma OneSpelling(text: string, r: Ref, q: Ref)
    ensures Spells(text, r) && Spells(text, q) ==> r == q
  {
    MatchesExactly(text, r);
    MatchesExactly(text, q);
  }

  /** The source that a matched reference finds. */
  function SourceOf(r: Ref, trigger: Trigger, results: Results): Option<Value> {
    if r.step.None? then Some(Obj(trigger))
    else if r.step.value in results && results[r.step.value] != Null then Some(results[r.step.value])
    else None
  }

  lemma SourceExactly(r: Ref, trigger: Trigger, results: Results, src: Value)
    ensures Source(r.step, trigger, results, src) <==> SourceOf(r, trigger, results) == Some(src)
  {
  }

  lemma ReadsMatched(text: string, trigger: Trigger, results: Results, x: Value)
    ensures Reads(text, trigger, results, x) <==>
            var m := MatchRef(text);
            m.Some? && SourceOf(m.value, trigger, results).Some? &&
            Picks(SourceOf(m.value, trigger, results).value, m.value.field, x)
  {
    var m := MatchRef(text);
    if m.Some? {
      MatchesExactly(text, m.value);
      if SourceOf(m.value, trigger, results).Some? {
        SourceExactly(m.value, trigger, results, SourceOf(m.value, trigger, results).value);
      }
    }
    if Reads(text, trigger, results, x) {
      var r, src :| Spells(text, r) && Source(r.step, trigger, results, src) && Picks(src, r.field, x);
      MatchesExactly(text, r);
    }
  }

  /** A reference resolves to exactly the value that it reads. */
  lemma ResolvedExactly(text: string, trigger: Trigger, results: Results, x: Value)
    ensures ResolveRef(text, trigger, results) == Ok(x) <==> Reads(text, trigger, results, x)
  {
    ReadsMatched(text, trigger, results, x);
  }

  lemma RefusedUnmatched(text: string, trigger: Trigger, results: Results, cause: Cause)
    requires MatchRef(text).None?
    ensures Refused(text, trigger, results, cause) <==> cause == UnresolvableRef(text)
  {
    forall r ensures !Spells(text, r) { MatchesExactly(text, r); }
  }

  lemma RefusedMatched(text: string, r: Ref, trigger: Trigger, results: Results, cause: Cause)
    requires MatchRef(text) == Some(r)
    ensures Refused(text, trigger, results, cause) <==>
            var src := SourceOf(r, trigger, results);
            match cause
            case StepNotRun(t) => t == text && src.None?
            case NotAddressable(t) => t == text && src.Some? && r.field.Some? && !src.value.Obj?
            case FieldMissing(t) => t == text && src.Some? && r.field.Some? && src.value.Obj? && r.field.value !in src.value.fields
            case _ => false
  {
    MatchesExactly(text, r);
    forall q | Spells(text, q) ensures q == r { OneSpelling(text, r, q); }
    forall src ensures Source(r.step, trigger, results, src) <==> SourceOf(r, trigger, results) == Some(src) {
      SourceExactly(r, trigger, results, src);
    }
  }

  /** And it fails for exactly the reason that it reads nothing. */
  lemma RefusedExactly(text: string, trigger: Trigger, results: Results, cause: Cause)
    ensures ResolveRef(text, trigger, results) == Err(cause) <==> Refused(text, trigger, results, cause)
  {
    if MatchRef(text).None? {
      RefusedUnmatched(text, trigger, results, cause);
    } else {
      RefusedMatched(text, MatchRef(text).value, trigger, results, cause);
    }
  }

  // ------------------------------------------------------------ what the arguments become

  /** A string that begins with "$" is a reference; anything else stands for itself. */
  predicate Dollar(v: Value) { v.Str? && "$" <= v.s }

  ghost predicate Becomes(v: Value, trigger: Trigger, results: Results, x: Value) {
    if Dollar(v) then Reads(v.s, trigger, results, x) else x == v
  }

  lemma DollarIsRef(v: Value)
    ensures Dollar(v) <==> IsRef(v)
  {
  }

  lemma BecomesExactly(v: Value, trigger: Trigger, results: Results, x: Value)
    ensures ResolveValue(v, trigger, results) == Ok(x) <==> Becomes(v, trigger, results, x)
  {
    DollarIsRef(v);
    if Dollar(v) { ResolvedExactly(v.s, trigger, results, x); }
  }

  /** The same keys in the same order, each with what its value becomes. */
  ghost predicate Delivered(args: Args, trigger: Trigger, results: Results, out: Args) {
    |out| == |args| &&
    forall i | 0 <= i < |args| :: out[i].key == args[i].key && Becomes(args[i].value, trigger, results, out[i].value)
  }

  /** The first argument that becomes nothing, and why. */
  ghost predicate Undeliverable(args: Args, trigger: Trigger, results: Results, cause: Cause) {
    exists i | 0 <= i < |args| :: FirstRefused(args, i, trigger, results, cause)
  }

  ghost predicate FirstRefused(args: Args, i: nat, trigger: Trigger, results: Results, cause: Cause)
    requires i < |args|
  {
    Dollar(args[i].value) && Refused(args[i].value.s, trigger, results, cause) &&
    exists out :: Delivered(args[..i], trigger, results, out)
  }

  lemma DeliveredLast(args: Args, trigger: Trigger, results: Results, out: Args)
    requires args != []
    ensures Delivered(args, trigger, results, out) <==>
            out != [] && Delivered(args[..|args|-1], trigger, results, out[..|out|-1]) &&
            out[|out|-1].key == args[|args|-1].key &&
            Becomes(args[|args|-1].value, trigger, results, out[|out|-1].value)
  {
    var init := args[..|args|-1];
    if out != [] && Delivered(init, trigger, results, out[..|out|-1]) {
      forall i | 0 <= i < |init|
        ensures out[i].key == args[i].key && Becomes(args[i].value, trigger, results, out[i].value)
      {
        assert init[i] == args[i] && out[..|out|-1][i] == out[i];
      }
    }
  }

  /** Resolving gives exactly the arguments that are delivered. */
  lemma {:induction false} DeliveredExactly(args: Args, trigger: Trigger, results: Results, out: Args)
    ensures ResolveArgs(args, trigger, results) == Ok(out) <==> Delivered(args, trigger, results, out)
  {
    if args != [] {
      var init, a := args[..|args|-1], args[|args|-1];
      DeliveredLast(args, trigger, results, out);
      if out != [] {
        var before, last := out[..|out|-1], out[|out|-1];
        DeliveredExactly(init, trigger, results, before);
        BecomesExactly(a.value, trigger, results, last.value);
        assert out == before + [last];
        ResolvedLast(args, trigger, results, before, last);
      }
    }
  }

  lemma ResolvedLast(args: Args, trigger: Trigger, results: Results, before: Args, last: Arg)
    requires args != []
    ensures ResolveArgs(args, trigger, results) == Ok(before + [last]) <==>
            ResolveArgs(args[..|args|-1], trigger, results) == Ok(before) &&
            last.key == args[|args|-1].key && ResolveValue(args[|args|-1].value, trigger, results) == Ok(last.value)
  {
    var r, v := ResolveArgs(args[..|args|-1], trigger, results), ResolveValue(args[|args|-1].value, trigger, results);
    if r.Ok? && v.Ok? { SnocInjective(r.value, Arg(args[|args|-1].key, v.value), before, last); }
  }

  lemma SnocInjective<T>(a: seq<T>, x: T, b: seq<T>, y: T)
    ensures a + [x] == b + [y] <==> a == b && x == y
  {
    if a + [x] == b + [y] {
      assert (a + [x])[|a|] == x && (b + [y])[|b|] == y;
      assert a == (a + [x])[..|a|] && b == (b + [y])[..|b|];
    }
  }

  lemma ResolvedPrefix(args: Args, trigger: Trigger, results: Results)
    ensures ResolveArgs(args, trigger, results).Ok? <==> exists out :: Delivered(args, trigger, results, out)
  {
    var r := ResolveArgs(args, trigger, results);
    if r.Ok? { DeliveredExactly(args, trigger, results, r.value); }
    if out :| Delivered(args, trigger, results, out) { DeliveredExactly(args, trigger, results, out); }
  }

  lemma RefusedEarlier(args: Args, init: Args, i: nat, trigger: Trigger, results: Results, cause: Cause)
    requires init <= args && i < |init|
    ensures FirstRefused(init, i, trigger, results, cause) <==> FirstRefused(args, i, trigger, results, cause)
  {
    assert init[i] == args[i] && init[..i] == args[..i];
  }

  lemma UndeliverableLonger(args: Args, init: Args, trigger: Trigger, results: Results, cause: Cause)
    requires init <= args && Undeliverable(init, trigger, results, cause)
    ensures Undeliverable(args, trigger, results, cause)
  {
    var i :| 0 <= i < |init| && FirstRefused(init, i, trigger, results, cause);
    RefusedEarlier(args, init, i, trigger, results, cause);
  }

  lemma UndeliverableShorter(args: Args, init: Args, trigger: Trigger, results: Results, cause: Cause)
    requires init <= args && |args| == |init| + 1 && Undeliverable(args, trigger, results, cause)
    ensures Undeliverable(init, trigger, results, cause) || FirstRefused(args, |init|, trigger, results, cause)
  {
    var i :| 0 <= i < |args| && FirstRefused(args, i, trigger, results, cause);
    if i < |init| { RefusedEarlier(args, init, i, trigger, results, cause); }
  }

  lemma UndeliverableLast(args: Args, init: Args, trigger: Trigger, results: Results, cause: Cause)
    requires init <= args && |args| == |init| + 1
    ensures Undeliverable(args, trigger, results, cause) <==>
            Undeliverable(init, trigger, results, cause) || FirstRefused(args, |init|, trigger, results, cause)
  {
    if Undeliverable(init, trigger, results, cause) { UndeliverableLonger(args, init, trigger, results, cause); }
    if Undeliverable(args, trigger, results, cause) { UndeliverableShorter(args, init, trigger, results, cause); }
  }

  /** Resolving fails for exactly the first argument that reads nothing, and for its reason. */
  lemma {:induction false} UndeliverableExactly(args: Args, trigger: Trigger, results: Results, cause: Cause)
    ensures ResolveArgs(args, trigger, results) == Err(cause) <==> Undeliverable(args, trigger, results, cause)
  {
    if args != [] {
      var init, a := args[..|args|-1], args[|args|-1];
      UndeliverableExactly(init, trigger, results, cause);
      UndeliverableLast(args, init, trigger, results, cause);
      ResolvedPrefix(init, trigger, results);
      DollarIsRef(a.value);
      if Dollar(a.value) { RefusedExactly(a.value.s, trigger, results, cause); }
    }
  }
}
