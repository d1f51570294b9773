/** Parameter parsing: how a type specification, with optional parameters and one varargs specifier, divides the
    arguments of a call into a fixed prefix, a slice of variable length and a fixed suffix. */
module VaArgs {

  import opened Common

  /** The type letters. */
  predicate IsLetter(c: char) {
    match c
    case 'l' | 'd' | 's' | 'b' | 'r' | 'a' | 'o' | 'O' => true
    case 'z' | 'Z' | 'C' | 'h' | 'f' | 'A' | 'H' | 'p' => true
    case _ => false
  }

  predicate IsModifier(c: char) {
    c == '/' || c == '!'
  }

  predicate IsVarargs(c: char) {
    c == '*' || c == '+'
  }

  /** What a call receives for the varargs specifier: nothing is written if the walk ends before it. */
  datatype Varargs = Untouched | Nothing | Slice(start: nat, count: nat)

  /** The arguments that went to each fixed letter, in order. */
  datatype Outcome = Failure | Success(fixed: seq<(nat, char)>, varargs: Varargs)

  /** Argument `i` can be converted as its letter asks. */
  predicate Converts(converts: seq<bool>, i: nat) {
    i < |converts| && converts[i]
  }

  // ---------------------------------------------------------------- what a specification promises

  ghost const LETTERS := "ldsbraoOzZChfAHp"

  lemma Alphabet(c: char)
    ensures IsLetter(c) <==> c in LETTERS
  {
  }

  /** Letters, each with any number of modifiers behind it. */
  ghost predicate WellFormed(s: string) {
    && (forall i :: 0 <= i < |s| ==> s[i] in LETTERS || s[i] == '/' || s[i] == '!')
    && (s != [] ==> s[0] in LETTERS)
  }

  /** The letters without their modifiers. */
  ghost function Stripped(s: string): string {
    if s == [] then []
    else if s[0] == '/' || s[0] == '!' then Stripped(s[1..])
    else [s[0]] + Stripped(s[1..])
  }

  lemma {:induction false} StrippedLetters(s: string)
    requires forall i :: 0 <= i < |s| ==> s[i] in LETTERS
    ensures WellFormed(s) && Stripped(s) == s
  {
    if s != [] {
      Alphabet(s[0]);
      StrippedLetters(s[1..]);
    }
  }

  /** The parameters that a call must have, those behind `|`, and the varargs specifier with those behind it. */
  datatype Format = Format(required: string, optional: Option<string>, varargs: Option<char>, post: string)

  ghost function Bar(optional: Option<string>): string {
    if optional.Some? then "|" + optional.value else ""
  }

  ghost function Tail(varargs: Option<char>, post: string): string {
    if varargs.Some? then [varargs.value] + post else ""
  }

  ghost function Text(f: Format): string {
    f.required + Bar(f.optional) + Tail(f.varargs, f.post)
  }

  ghost predicate FormatOk(f: Format) {
    && WellFormed(f.required) && (f.optional.Some? ==> WellFormed(f.optional.value)) && WellFormed(f.post)
    && (if f.varargs.Some? then f.varargs.value == '*' || f.varargs.value == '+' else f.post == "")
  }

  /** The letters in front of the varargs specifier, */
  ghost function Front(f: Format): string {
    Stripped(f.required) + if f.optional.Some? then Stripped(f.optional.value) else ""
  }

  /** and behind it. */
  ghost function Behind(f: Format): string {
    Stripped(f.post)
  }

  /** Behind `|` nothing is required, not even one argument for `+`. */
  ghost function Least(f: Format): nat {
    if f.optional.Some? then |Stripped(f.required)|
    else |Front(f)| + |Behind(f)| + if f.varargs == Some('+') then 1 else 0
  }

  /** Argument `at + k` for letter `k`. */
  function Pairs(letters: string, at: nat): (r: seq<(nat, char)>)
    ensures |r| == |letters| && forall k :: 0 <= k < |r| ==> r[k] == (at + k, letters[k])
  {
    seq(|letters|, k requires 0 <= k < |letters| => (at + k, letters[k]))
  }

  /** `n` arguments for the letters `p`, then the specifier, if there is one, and then the letters `q`. */
  ghost function Divide(p: string, varargs: Option<char>, q: string, n: nat): Outcome {
    if n <= |p| then Success(Pairs(p[..n], 0), Untouched)
    else DivideBehind(Pairs(p, 0), varargs, q, |p|, n - |p|)
  }

  /** `m` arguments from `i` on for the specifier and the letters behind it, which come first. */
  ghost function DivideBehind(fixed: seq<(nat, char)>, varargs: Option<char>, q: string, i: nat, m: nat): Outcome {
    if varargs.None? then Failure
    else if m <= |q| then Success(fixed + Pairs(q[..m], i), Nothing)
    else Success(fixed + Pairs(q, i + m - |q|), Slice(i, m - |q|))
  }

  /** The division that a call of `n` arguments must get. */
  ghost function Expected(f: Format, n: nat): Outcome {
    if n < Least(f) then Failure else Divide(Front(f), f.varargs, Behind(f), n)
  }

  /** Every argument that goes to a letter can be converted; those of the slice are not converted. */
  ghost predicate FixedConvert(converts: seq<bool>, fixed: seq<(nat, char)>) {
    forall k {:trigger fixed[k]} :: 0 <= k < |fixed| ==> Converts(converts, fixed[k].0)
  }

  ghost function Judge(r: Outcome, converts: seq<bool>): Outcome {
    if r.Success? && !FixedConvert(converts, r.fixed) then Failure else r
  }

  /** The characters that a specification may hold. */
  ghost predicate Allowed(c: char) {
    c in LETTERS || c == '/' || c == '!' || c == '|' || c == '*' || c == '+'
  }

  /** A character that means nothing, or a second varargs specifier. */
  ghost predicate Malformed(spec: string) {
    || (exists i :: 0 <= i < |spec| && !Allowed(spec[i]))
    || (exists i, j :: 0 <= i < j < |spec| && IsVarargs(spec[i]) && IsVarargs(spec[j]))
  }

  // ---------------------------------------------------------------- counting

  /** What the first loop has counted; a bad specification stops it. */
  datatype Tally = Bad | Tally(have: bool, least: int, most: nat, mark: nat)

  ghost predicate TallyOk(t: Tally) {
    t.Tally? ==> t.mark <= t.most
  }

  function Count(t: Tally, c: char): (r: Tally)
    requires t.Tally?
    ensures TallyOk(t) ==> TallyOk(r)
  {
    if IsLetter(c) then t.(most := t.most + 1)
    else if c == '|' then t.(least := t.most)
    else if IsVarargs(c) then
      if t.have then Bad
      else
        var most := if c == '+' then t.most + 1 else t.most;
        t.(have := true, most := most, mark := most)
    else if IsModifier(c) then t else Bad
  }

  ghost function CountAll(t: Tally, s: string): Tally
    decreases |s|
  {
    if t.Bad? || s == [] then t else CountAll(Count(t, s[0]), s[1..])
  }

  lemma {:induction false} CountSplit(t: Tally, a: string, b: string)
    ensures CountAll(t, a + b) == CountAll(CountAll(t, a), b)
    decreases |a|
  {
    if a == [] {
      assert a + b == b;
    } else if t.Tally? {
      assert (a + b)[1..] == a[1..] + b;
      CountSplit(Count(t, a[0]), a[1..], b);
    }
  }

  ghost predicate OnlyPlain(s: string) {
    forall i :: 0 <= i < |s| ==> IsLetter(s[i]) || IsModifier(s[i])
  }

  lemma FormedIsPlain(s: string)
    requires WellFormed(s)
    ensures OnlyPlain(s) && (s != [] ==> IsLetter(s[0]))
  {
    forall i | 0 <= i < |s| ensures IsLetter(s[i]) || IsModifier(s[i]) { Alphabet(s[i]); }
    if s != [] { Alphabet(s[0]); }
  }

  lemma {:induction false} CountPlain(t: Tally, a: string)
    requires t.Tally? && OnlyPlain(a)
    ensures CountAll(t, a) == t.(most := t.most + |Stripped(a)|)
    decreases |a|
  {
    if a != [] {
      CountPlain(Count(t, a[0]), a[1..]);
    }
  }

  lemma CountOne(t: Tally, c: char)
    requires t.Tally?
    ensures CountAll(t, [c]) == Count(t, c)
  {
    assert [c][1..] == [];
    assert CountAll(Count(t, c), []) == Count(t, c);
  }

  /** The optional part. */
  lemma CountOptional(t: Tally, optional: Option<string>)
    requires t.Tally? && (optional.Some? ==> OnlyPlain(optional.value))
    ensures CountAll(t, Bar(optional)) ==
            if optional.None? then t else t.(least := t.most, most := t.most + |Stripped(optional.value)|)
  {
    if optional.Some? {
      CountSplit(t, "|", optional.value);
      CountOne(t, '|');
      CountPlain(Count(t, '|'), optional.value);
    }
  }

  /** The specifier and what follows it. */
  lemma CountTail(t: Tally, varargs: Option<char>, post: string)
    requires t.Tally? && !t.have && OnlyPlain(post) && (varargs.Some? ==> IsVarargs(varargs.value))
    ensures CountAll(t, Tail(varargs, post)) ==
            if varargs.None? then t
            else
              var mark := t.most + if varargs.value == '+' then 1 else 0;
              Tally(true, t.least, mark + |Stripped(post)|, mark)
  {
    if varargs.Some? {
      CountSplit(t, [varargs.value], post);
      CountOne(t, varargs.value);
      CountPlain(Count(t, varargs.value), post);
    }
  }

  /** The parts one after the other. */
  lemma CountText(f: Format)
    requires FormatOk(f)
    ensures var t := CountAll(Tally(false, -1, 0, 0), Text(f));
            && t.Tally? && t.have == f.varargs.Some? && (t.least >= 0 <==> f.optional.Some?)
            && (t.least >= 0 ==> t.least == Least(f)) && (t.least < 0 ==> t.most == Least(f))
            && (t.have ==> t.most - t.mark == |Behind(f)|) && (!t.have ==> t.most == |Front(f)|)
  {
    var t := Tally(false, -1, 0, 0);
    FormedIsPlain(f.required);
    FormedIsPlain(f.post);
    if f.optional.Some? { FormedIsPlain(f.optional.value); }
    CountSplit(t, f.required + Bar(f.optional), Tail(f.varargs, f.post));
    CountSplit(t, f.required, Bar(f.optional));
    CountPlain(t, f.required);
    CountOptional(CountAll(t, f.required), f.optional);
    CountTail(CountAll(t, f.required + Bar(f.optional)), f.varargs, f.post);
  }

  lemma {:induction false} UnknownIsBad(t: Tally, s: string, i: nat)
    requires i < |s| && !Allowed(s[i])
    ensures CountAll(t, s) == Bad
    decreases |s|
  {
    Alphabet(s[0]);
    if t.Tally? && i > 0 { UnknownIsBad(Count(t, s[0]), s[1..], i - 1); }
  }

  lemma {:induction false} SecondIsBad(t: Tally, s: string, j: nat)
    requires j < |s| && IsVarargs(s[j])
    requires (t.Tally? && t.have) || exists i :: 0 <= i < j && IsVarargs(s[i])
    ensures CountAll(t, s) == Bad
    decreases |s|
  {
    if t.Tally? && j > 0 {
      var t' := Count(t, s[0]);
      if t'.Tally? {
        if !t'.have {
          var i :| 0 <= i < j && IsVarargs(s[i]);
          assert IsVarargs(s[1..][i - 1]);
        }
        SecondIsBad(t', s[1..], j - 1);
      }
    }
  }

  lemma MalformedIsBad(t: Tally, s: string)
    requires Malformed(s)
    ensures CountAll(t, s) == Bad
  {
    if i :| 0 <= i < |s| && !Allowed(s[i]) {
      UnknownIsBad(t, s, i);
    } else {
      var i, j :| 0 <= i < j < |s| && IsVarargs(s[i]) && IsVarargs(s[j]);
      SecondIsBad(t, s, j);
    }
  }

  /** The first loop: the specification checked and its letters counted. */
  method Scan(spec: string) returns (t: Tally)
    ensures t == CountAll(Tally(false, -1, 0, 0), spec) && TallyOk(t)
  {
    t := Tally(false, -1, 0, 0);
    assert spec[0..] == spec;
    for j := 0 to |spec|
      invariant t.Tally? && TallyOk(t) && CountAll(t, spec[j..]) == CountAll(Tally(false, -1, 0, 0), spec)
    {
      assert spec[j..][1..] == spec[j + 1..];
      t := Count(t, spec[j]);
      if t.Bad? {
        return;
      }
    }
  }

  // ---------------------------------------------------------------- dividing

  function SkipModifiers(s: string): (r: string)
    ensures |r| <= |s|
  {
    if s != [] && IsModifier(s[0]) then SkipModifiers(s[1..]) else s
  }

  /** The specification behind its first character and, if that is a letter, the modifiers of it. */
  function SkipItem(s: string): (r: string)
    requires s != []
    ensures |r| < |s|
  {
    if IsLetter(s[0]) then SkipModifiers(s[1..]) else s[1..]
  }

  /** The specification without the modifiers of its letters. */
  ghost function Tokens(s: string): string
    decreases |s|
  {
    if s == [] then [] else [s[0]] + Tokens(SkipItem(s))
  }

  function Unbarred(s: string): string {
    if s != [] && s[0] == '|' then s[1..] else s
  }

  /** The second loop on tokens, were all conversions to succeed: `left` arguments from `i` on, the last `keep` of them
      not for the specifier. */
  ghost function Deal(t: string, i: nat, left: nat, fixed: seq<(nat, char)>, va: Varargs, keep: nat): Outcome
    decreases left, 2
  {
    if left == 0 then Success(fixed, va) else DealNext(Unbarred(t), i, left, fixed, va, keep)
  }

  ghost function DealNext(t: string, i: nat, left: nat, fixed: seq<(nat, char)>, va: Varargs, keep: nat): Outcome
    requires left > 0
    decreases left, 1
  {
    if t == [] || !IsVarargs(t[0]) then Hand(t, i, left, fixed, va, keep)
    else if left <= keep then Hand(t[1..], i, left, fixed, Nothing, keep)
    else Deal(t[1..], i + left - keep, keep, fixed, Slice(i, left - keep), keep)
  }

  /** One argument to one letter. */
  ghost function Hand(t: string, i: nat, left: nat, fixed: seq<(nat, char)>, va: Varargs, keep: nat): Outcome
    requires left > 0
    decreases left, 0
  {
    if t == [] || !IsLetter(t[0]) then Failure
    else Deal(t[1..], i + 1, left - 1, fixed + [(i, t[0])], va, keep)
  }

  lemma {:induction false} DealAdds(t: string, i: nat, left: nat, fixed: seq<(nat, char)>, va: Varargs, keep: nat)
    ensures var r := Deal(t, i, left, fixed, va, keep); r.Success? ==> fixed <= r.fixed
    decreases left, 1
  {
    var t' := Unbarred(t);
    if left == 0 {
    } else if t' == [] || !IsVarargs(t'[0]) {
      HandAdds(t', i, left, fixed, va, keep);
    } else if left <= keep {
      HandAdds(t'[1..], i, left, fixed, Nothing, keep);
    } else {
      DealAdds(t'[1..], i + left - keep, keep, fixed, Slice(i, left - keep), keep);
    }
  }

  lemma {:induction false} HandAdds(t: string, i: nat, left: nat, fixed: seq<(nat, char)>, va: Varargs, keep: nat)
    requires left > 0
    ensures var r := Hand(t, i, left, fixed, va, keep); r.Success? ==> fixed <= r.fixed
    ensures var r := Hand(t, i, left, fixed, va, keep);
            r.Success? ==> t != [] && |fixed| < |r.fixed| && r.fixed[|fixed|] == (i, t[0])
    decreases left, 0
  {
    if t != [] && IsLetter(t[0]) { DealAdds(t[1..], i + 1, left - 1, fixed + [(i, t[0])], va, keep); }
  }

  /** One argument that cannot be converted fails the call. */
  lemma Unconverted(t: string, i: nat, left: nat, fixed: seq<(nat, char)>, va: Varargs, keep: nat, converts: seq<bool>)
    requires left > 0 && !Converts(converts, i)
    ensures Judge(Hand(t, i, left, fixed, va, keep), converts) == Failure
  {
    HandAdds(t, i, left, fixed, va, keep);
    var r := Hand(t, i, left, fixed, va, keep);
    if r.Success? { assert r.fixed[|fixed|].0 == i; }
  }

  lemma TokensHead(s: string)
    ensures Tokens(Unbarred(s)) == Unbarred(Tokens(s)) && (s == [] ==> Tokens(s) == [])
    ensures s != [] ==> Tokens(s) != [] && Tokens(s)[0] == s[0] && Tokens(s)[1..] == Tokens(SkipItem(s))
  {
  }

  /** The letter at hand takes the argument at hand. */
  lemma HandHead(s: string, i: nat, left: nat, fixed: seq<(nat, char)>, va: Varargs, keep: nat)
    requires left > 0
    ensures Hand(Tokens(s), i, left, fixed, va, keep) ==
            if s == [] || !IsLetter(s[0]) then Failure
            else Deal(Tokens(SkipItem(s)), i + 1, left - 1, fixed + [(i, s[0])], va, keep)
  {
    TokensHead(s);
  }

  lemma DealHead(s: string, i: nat, left: nat, fixed: seq<(nat, char)>, va: Varargs, keep: nat)
    requires left > 0
    ensures var u := Unbarred(s);
            Deal(Tokens(s), i, left, fixed, va, keep) ==
            if u == [] || !IsVarargs(u[0]) then Hand(Tokens(u), i, left, fixed, va, keep)
            else if left <= keep then Hand(Tokens(u[1..]), i, left, fixed, Nothing, keep)
            else Deal(Tokens(u[1..]), i + left - keep, keep, fixed, Slice(i, left - keep), keep)
  {
    TokensHead(s);
    TokensHead(Unbarred(s));
  }

  /** The second loop: each argument to its letter, the varargs specifier to its slice. */
  method Walk(spec: string, n: nat, keep: nat, converts: seq<bool>) returns (r: Outcome)
    ensures r == Judge(Deal(Tokens(spec), 0, n, [], Untouched, keep), converts)
  {
    var rest, i: nat, left: nat, fixed: seq<(nat, char)>, va := spec, 0, n, [], Untouched;
    ghost var all := Deal(Tokens(spec), 0, n, [], Untouched, keep);
    while left > 0
      invariant Deal(Tokens(rest), i, left, fixed, va, keep) == all && FixedConvert(converts, fixed)
    {
      DealHead(rest, i, left, fixed, va, keep);
      rest := Unbarred(rest);
      if rest != [] && IsVarargs(rest[0]) {
        var count := left - keep;
        rest := rest[1..];
        if count > 0 {
          va := Slice(i, count);
          left, i := left - count, i + count;
          continue;
        }
        va := Nothing;
      }
      assert Hand(Tokens(rest), i, left, fixed, va, keep) == all;
      HandHead(rest, i, left, fixed, va, keep);
      if rest == [] || !IsLetter(rest[0]) {
        return Failure;
      }
      if !Converts(converts, i) {
        Unconverted(Tokens(rest), i, left, fixed, va, keep, converts);
        return Failure;
      }
      fixed := fixed + [(i, rest[0])];
      rest, i, left := SkipItem(rest), i + 1, left - 1;
    }
    r := Success(fixed, va);
  }

  // ---------------------------------------------------------------- the division

  ghost predicate AllLetters(s: string) {
    forall i :: 0 <= i < |s| ==> IsLetter(s[i])
  }

  lemma {:induction false} StrippedIsLetters(a: string)
    requires OnlyPlain(a)
    ensures AllLetters(Stripped(a))
  {
    if a != [] { StrippedIsLetters(a[1..]); }
  }

  lemma {:induction false} SkipInside(s: string, t: string)
    requires t != [] ==> !IsModifier(t[0])
    ensures SkipModifiers(s + t) == SkipModifiers(s) + t
  {
    if s == [] {
      assert s + t == t;
    } else if IsModifier(s[0]) {
      assert (s + t)[1..] == s[1..] + t;
      SkipInside(s[1..], t);
    }
  }

  lemma {:induction false} SkipStripped(s: string)
    requires OnlyPlain(s)
    ensures var r := SkipModifiers(s); Stripped(r) == Stripped(s) && OnlyPlain(r) && (r != [] ==> IsLetter(r[0]))
  {
    if s != [] && IsModifier(s[0]) { SkipStripped(s[1..]); }
  }

  lemma {:induction false} PlainTokens(a: string, t: string)
    requires OnlyPlain(a) && (a != [] ==> IsLetter(a[0])) && (t != [] ==> !IsModifier(t[0]))
    ensures Tokens(a + t) == Stripped(a) + Tokens(t)
    decreases |a|
  {
    if a == [] {
      Regroup("", "", Tokens(t));
      assert a + t == t;
    } else {
      assert (a + t)[0] == a[0] && (a + t)[1..] == a[1..] + t;
      SkipInside(a[1..], t);
      SkipStripped(a[1..]);
      PlainTokens(SkipItem(a), t);
      Regroup([a[0]], Stripped(a[1..]), Tokens(t));
    }
  }

  lemma Regroup(a: string, b: string, t: string)
    ensures a + (b + t) == (a + b) + t && a + "" == a == "" + a
  {
  }

  lemma FormedTokens(a: string, t: string)
    requires WellFormed(a) && (t != [] ==> !IsModifier(t[0]))
    ensures AllLetters(Stripped(a)) && Tokens(a + t) == Stripped(a) + Tokens(t)
    ensures a + t != [] ==> !IsModifier((a + t)[0])
  {
    FormedIsPlain(a);
    PlainTokens(a, t);
    StrippedIsLetters(a);
    if a == [] { assert a + t == t; }
  }

  lemma TailTokens(f: Format)
    requires FormatOk(f)
    ensures AllLetters(Behind(f)) && Tokens(Tail(f.varargs, f.post)) == Tail(f.varargs, Behind(f))
    ensures Tail(f.varargs, f.post) != [] ==> !IsModifier(Tail(f.varargs, f.post)[0])
  {
    FormedTokens(f.post, "");
    assert f.post + "" == f.post && Behind(f) + Tokens("") == Behind(f);
    if f.varargs.Some? { assert Tail(f.varargs, f.post)[1..] == f.post; }
  }

  /** A bar between two parts. */
  lemma BarTokens(a: string, b: string, t: string)
    requires WellFormed(a) && WellFormed(b) && (t != [] ==> !IsModifier(t[0]))
    ensures AllLetters(Stripped(a)) && AllLetters(Stripped(b))
    ensures Tokens(a + (['|'] + (b + t))) == Stripped(a) + (['|'] + (Stripped(b) + Tokens(t)))
  {
    FormedTokens(b, t);
    FormedTokens(a, ['|'] + (b + t));
    assert (['|'] + (b + t))[1..] == b + t;
  }

  lemma TextParts(f: Format)
    ensures f.optional.None? ==> Text(f) == f.required + Tail(f.varargs, f.post)
    ensures f.optional.Some? ==>
              Text(f) == f.required + (['|'] + (f.optional.value + Tail(f.varargs, f.post)))
  {
  }

  lemma TextTokens(f: Format)
    requires FormatOk(f)
    ensures AllLetters(Stripped(f.required)) && AllLetters(Behind(f))
    ensures f.optional.Some? ==> AllLetters(Stripped(f.optional.value))
    ensures Tokens(Text(f)) ==
            if f.optional.None? then Stripped(f.required) + Tail(f.varargs, Behind(f))
            else Stripped(f.required) + (['|'] + (Stripped(f.optional.value) + Tail(f.varargs, Behind(f))))
  {
    var t := Tail(f.varargs, f.post);
    TailTokens(f);
    TextParts(f);
    if f.optional.None? {
      FormedTokens(f.required, t);
    } else {
      BarTokens(f.required, f.optional.value, t);
    }
  }

  lemma DealLetter(t: string, i: nat, left: nat, fixed: seq<(nat, char)>, va: Varargs, keep: nat)
    requires t != [] && IsLetter(t[0]) && left > 0
    ensures Hand(t, i, left, fixed, va, keep) == Deal(t[1..], i + 1, left - 1, fixed + [(i, t[0])], va, keep)
    ensures Deal(t, i, left, fixed, va, keep) == Hand(t, i, left, fixed, va, keep)
  {
    assert Unbarred(t) == t;
  }

  /** A run of letters for which there are arguments enough. */
  lemma {:induction false} DealLetters(a: string, t: string, i: nat, left: nat, fixed: seq<(nat, char)>, va: Varargs,
                                       keep: nat)
    requires AllLetters(a) && |a| <= left
    ensures Deal(a + t, i, left, fixed, va, keep) ==
            Deal(t, i + |a|, left - |a|, fixed + Pairs(a, i), va, keep)
    decreases |a|
  {
    if a == [] {
      assert a + t == t && fixed + Pairs(a, i) == fixed;
    } else {
      DealLetter(a + t, i, left, fixed, va, keep);
      assert (a + t)[0] == a[0] && (a + t)[1..] == a[1..] + t;
      DealLetters(a[1..], t, i + 1, left - 1, fixed + [(i, a[0])], va, keep);
      MorePairs(a, i, fixed);
    }
  }

  lemma MorePairs(a: string, i: nat, fixed: seq<(nat, char)>)
    requires a != []
    ensures fixed + Pairs(a, i) == fixed + [(i, a[0])] + Pairs(a[1..], i + 1)
  {
  }

  /** A run of letters in which the arguments end. */
  lemma DealLast(a: string, t: string, i: nat, left: nat, fixed: seq<(nat, char)>, va: Varargs, keep: nat)
    requires AllLetters(a) && left <= |a|
    ensures Deal(a + t, i, left, fixed, va, keep) == Success(fixed + Pairs(a[..left], i), va)
  {
    assert a + t == a[..left] + (a[left..] + t);
    DealLetters(a[..left], a[left..] + t, i, left, fixed, va, keep);
  }

  /** The bar alone changes nothing. */
  lemma DealBarHere(t: string, i: nat, left: nat, fixed: seq<(nat, char)>, va: Varargs, keep: nat)
    requires Unbarred(t) == t
    ensures Deal(['|'] + t, i, left, fixed, va, keep) == Deal(t, i, left, fixed, va, keep)
  {
    assert Unbarred(['|'] + t) == t;
  }

  lemma {:induction false} DealBar(a: string, t: string, i: nat, left: nat, fixed: seq<(nat, char)>, va: Varargs,
                                   keep: nat)
    requires AllLetters(a) && Unbarred(t) == t
    ensures Deal(a + (['|'] + t), i, left, fixed, va, keep) == Deal(a + t, i, left, fixed, va, keep)
    decreases |a|
  {
    if a == [] {
      DealBarHere(t, i, left, fixed, va, keep);
      assert a + t == t && a + (['|'] + t) == ['|'] + t;
    } else if left > 0 {
      var b := ['|'] + t;
      DealLetter(a + t, i, left, fixed, va, keep);
      DealLetter(a + b, i, left, fixed, va, keep);
      assert (a + t)[1..] == a[1..] + t && (a + b)[1..] == a[1..] + b;
      DealBar(a[1..], t, i + 1, left - 1, fixed + [(i, a[0])], va, keep);
    }
  }

  /** The specifier itself. */
  lemma DealSpecifier(c: char, q: string, i: nat, m: nat, fixed: seq<(nat, char)>)
    requires IsVarargs(c) && m > 0
    ensures Deal([c] + q, i, m, fixed, Untouched, |q|) ==
            if m <= |q| then Hand(q, i, m, fixed, Nothing, |q|)
            else Deal(q, i + m - |q|, |q|, fixed, Slice(i, m - |q|), |q|)
  {
    assert ([c] + q)[1..] == q && Unbarred([c] + q) == [c] + q;
  }

  /** Too few arguments for all letters behind it, */
  lemma DealFew(c: char, q: string, i: nat, m: nat, fixed: seq<(nat, char)>)
    requires IsVarargs(c) && AllLetters(q) && 0 < m <= |q|
    ensures Deal([c] + q, i, m, fixed, Untouched, |q|) == Success(fixed + Pairs(q[..m], i), Nothing)
  {
    DealSpecifier(c, q, i, m, fixed);
    DealLetter(q, i, m, fixed, Nothing, |q|);
    DealLast(q, "", i, m, fixed, Nothing, |q|);
    Regroup(q, "", "");
  }

  /** or some for its slice. */
  lemma DealMany(c: char, q: string, i: nat, m: nat, fixed: seq<(nat, char)>)
    requires IsVarargs(c) && AllLetters(q) && m > |q|
    ensures Deal([c] + q, i, m, fixed, Untouched, |q|) ==
            Success(fixed + Pairs(q, i + m - |q|), Slice(i, m - |q|))
  {
    DealSpecifier(c, q, i, m, fixed);
    DealLetters(q, "", i + m - |q|, |q|, fixed, Slice(i, m - |q|), |q|);
    Regroup(q, "", "");
  }

  lemma DealNothing(i: nat, left: nat, fixed: seq<(nat, char)>, va: Varargs, keep: nat)
    requires left > 0
    ensures Deal("", i, left, fixed, va, keep) == Failure
  {
    assert Hand("", i, left, fixed, va, keep) == Failure;
  }

  lemma NoneBefore(s: seq<(nat, char)>)
    ensures [] + s == s
  {
  }

  lemma DealFront(p: string, t: string, n: nat, keep: nat)
    requires AllLetters(p)
    ensures n <= |p| ==> Deal(p + t, 0, n, [], Untouched, keep) == Success(Pairs(p[..n], 0), Untouched)
    ensures n > |p| ==>
              Deal(p + t, 0, n, [], Untouched, keep) == Deal(t, |p|, n - |p|, Pairs(p, 0), Untouched, keep)
  {
    if n <= |p| {
      DealLast(p, t, 0, n, [], Untouched, keep);
      NoneBefore(Pairs(p[..n], 0));
    } else {
      DealLetters(p, t, 0, n, [], Untouched, keep);
      NoneBefore(Pairs(p, 0));
    }
  }

  lemma DealTail(varargs: Option<char>, q: string, i: nat, m: nat, fixed: seq<(nat, char)>)
    requires AllLetters(q) && (varargs.Some? ==> IsVarargs(varargs.value)) && m > 0
    ensures Deal(Tail(varargs, q), i, m, fixed, Untouched, |q|) == DivideBehind(fixed, varargs, q, i, m)
  {
    if varargs.None? {
      DealNothing(i, m, fixed, Untouched, |q|);
    } else if m <= |q| {
      DealFew(varargs.value, q, i, m, fixed);
    } else {
      DealMany(varargs.value, q, i, m, fixed);
    }
  }

  /** The walk over tokens without a bar. */
  lemma DealAll(p: string, varargs: Option<char>, q: string, n: nat)
    requires AllLetters(p) && AllLetters(q) && (varargs.Some? ==> IsVarargs(varargs.value))
    ensures Deal(p + Tail(varargs, q), 0, n, [], Untouched, |q|) == Divide(p, varargs, q, n)
  {
    DealFront(p, Tail(varargs, q), n, |q|);
    if n > |p| { DealTail(varargs, q, |p|, n - |p|, Pairs(p, 0)); }
  }

  /** The walk over a valid specification. */
  lemma Dealt(f: Format, n: nat)
    requires FormatOk(f)
    ensures Deal(Tokens(Text(f)), 0, n, [], Untouched, |Behind(f)|) == Divide(Front(f), f.varargs, Behind(f), n)
  {
    var a, b := Stripped(f.required), if f.optional.Some? then Stripped(f.optional.value) else "";
    var q, t := Behind(f), Tail(f.varargs, Behind(f));
    TextTokens(f);
    Regroup(a, b, t);
    DealAll(a + b, f.varargs, q, n);
    if f.optional.Some? { DealBar(a, b + t, 0, n, [], Untouched, |q|); }
  }

  /** Of what was counted, and of the calls that the counts let through, for a valid specification. */
  lemma Counted(f: Format, n: nat)
    requires FormatOk(f)
    ensures var t := CountAll(Tally(false, -1, 0, 0), Text(f));
            && t.Tally? && (t.have ==> t.most - t.mark == |Behind(f)|) && (!t.have ==> |Behind(f)| == 0)
            && (n < (if t.least < 0 then t.most else t.least) || (!t.have && n > t.most > 0) ==>
                  Expected(f, n) == Failure)
            && (n >= (if t.least < 0 then t.most else t.least) ==>
                  Expected(f, n) == Divide(Front(f), f.varargs, Behind(f), n))
  {
    CountText(f);
  }

  /** `zend_parse_va_args`: every call gets the division expected, or fails for want of arguments or conversions. */
  method Parse(spec: string, numArgs: nat, argCount: nat, converts: seq<bool>, ghost f: Format) returns (r: Outcome)
    ensures FormatOk(f) && spec == Text(f) && numArgs <= argCount ==> r == Judge(Expected(f, numArgs), converts)
    ensures Malformed(spec) || numArgs > argCount ==> r == Failure
  {
    if FormatOk(f) { Counted(f, numArgs); }
    if Malformed(spec) { MalformedIsBad(Tally(false, -1, 0, 0), spec); }
    var t := Scan(spec);
    if t.Bad? {
      return Failure;
    }
    var least, most: int, keep: nat := if t.least < 0 then t.most else t.least, t.most, 0;
    if t.have {
      keep := t.most - t.mark;
      most := -1;
    }
    if numArgs < least || (numArgs > most && most > 0) || numArgs > argCount {
      return Failure;
    }
    if FormatOk(f) { Dealt(f, numArgs); }
    r := Walk(spec, numArgs, keep, converts);
  }

  // ---------------------------------------------------------------- against the documentation

  /** `zend_parse_va_args` leaves the caller's array and count unwritten when nothing is left for a specifier at the
      end, but writes NULL and 0 when letters follow it. */
  method UnwrittenSlice(letter: char) returns (atEnd: Outcome, before: Outcome)
    requires letter in LETTERS
    ensures atEnd == Success([], Untouched) && before == Success([(0, letter)], Nothing)
  {
    StrippedLetters([letter]);
    atEnd := Parse("*", 0, 0, [], Format("", None, Some('*'), ""));
    before := Parse(['*', letter], 1, 1, [true], Format("", None, Some('*'), [letter]));
    assert ['*', letter] == "" + "" + ['*'] + [letter] && Front(Format("", None, Some('*'), [letter])) == "";
    assert Pairs("", 0) + Pairs([letter][..1], 0) == [(0, letter)];
  }

  /** A specifier `+` gets an argument in every call that succeeds exactly if no `|` is in front of it. */
  lemma PlusFilled(f: Format)
    requires FormatOk(f) && f.varargs == Some('+')
    ensures (forall n: nat {:trigger Expected(f, n)} :: Expected(f, n).Success? ==> Expected(f, n).varargs.Slice?) <==>
              f.optional.None?
  {
    if f.optional.Some? { assert Expected(f, Least(f)) == Divide(Front(f), f.varargs, Behind(f), Least(f)); }
  }

  /** The call that shows it: one argument for a letter behind `|` and none for `+`. */
  method PlusEmpty(letter: char) returns (r: Outcome)
    requires letter in LETTERS
    ensures r == Success([(0, letter)], Untouched)
  {
    ghost var f := Format("", Some([letter]), Some('+'), "");
    StrippedLetters([letter]);
    assert Text(f) == ['|', letter, '+'] && Front(f) == [letter];
    r := Parse(['|', letter, '+'], 1, 1, [true], f);
    assert Pairs([letter][..1], 0) == [(0, letter)];
  }

  /** The letter `L` is documented and converted, but no specification that holds it is accepted. */
  method LimitRefused(spec: string, i: nat, numArgs: nat, argCount: nat, converts: seq<bool>) returns (r: Outcome)
    requires i < |spec| && spec[i] == 'L'
    ensures r == Failure
  {
    assert !Allowed(spec[i]);
    r := Parse(spec, numArgs, argCount, converts, Format("", None, None, ""));
  }
}
