/** The formatter of translations: `${}` placeholders replaced by arguments, from left to right. */
module SmclFormatter {
  import opened Seqs

  const PLACEHOLDER := "${}"

  /** `isArgHere`: a placeholder starts at index `i`. */
  predicate ArgAt(input: string, i: nat) {
    i + 3 <= |input| && input[i] == '$' && input[i + 1] == '{' && input[i + 2] == '}'
  }

  /** What one scan from the left makes of the rest of a template and the arguments left. */
  function Fill(input: string, args: seq<string>): string
    decreases |input|
  {
    if input == "" then ""
    else if ArgAt(input, 0) && args != [] then args[0] + Fill(input[3..], args[1..])
    else [input[0]] + Fill(input[1..], args)
  }

  class SMCLFormatter {
    const input: string
    var output: string
    var args_str: seq<string>
    var arg_idx: nat
    var curr_idx: nat

    constructor (str: string)
      ensures Valid() && input == str && output == "" && args_str == [] && arg_idx == 0 && curr_idx == 0
    {
      input := str;
      output := "";
      args_str := [];
      arg_idx := 0;
      curr_idx := 0;
    }

    ghost predicate Valid()
      reads this
    {
      curr_idx <= |input| && arg_idx <= |args_str|
    }

    /** From wherever an earlier call stopped, to the end; on a new formatter, the whole template is filled. */
    method format(args: seq<string>)
      requires Valid()
      modifies this
      ensures Valid() && curr_idx == |input| && args_str == old(args_str) + args
      ensures output == old(output) + Fill(input[old(curr_idx)..], (old(args_str) + args)[old(arg_idx)..])
      ensures old(output) == "" && old(curr_idx) == 0 && old(args_str) == [] ==> output == Fill(input, args)
    {
      args_str := args_str + args;
      ghost var whole := output + Fill(input[curr_idx..], args_str[arg_idx..]);
      assert input[0..] == input && ([] + args)[0..] == args && "" + Fill(input, args) == Fill(input, args);
      while curr_idx < |input|
        invariant Valid() && args_str == old(args_str) + args
        invariant whole == output + Fill(input[curr_idx..], args_str[arg_idx..])
      {
        processChar();
        curr_idx := curr_idx + 1;
      }
      assert input[curr_idx..] == "" && output + "" == output;
    }

    /** One character, or a whole placeholder; the cursor is left on the last character dealt with. */
    method processChar()
      requires curr_idx < |input| && arg_idx <= |args_str|
      modifies this`output, this`arg_idx, this`curr_idx
      ensures old(curr_idx) <= curr_idx < |input| && arg_idx <= |args_str|
      ensures old(output) + Fill(input[old(curr_idx)..], args_str[old(arg_idx)..])
           == output + Fill(input[curr_idx + 1..], args_str[arg_idx..])
    {
      ghost var rest, left := input[curr_idx..], args_str[arg_idx..];
      assert ArgAt(rest, 0) == ArgAt(input, curr_idx);
      var c := input[curr_idx];
      var here := isArgHere();
      if here && arg_idx < |args_str| {
        assert rest[3..] == input[curr_idx + 3..] && left[1..] == args_str[arg_idx + 1..];
        Assoc(output, left[0], Fill(rest[3..], left[1..]));
        output := output + args_str[arg_idx];
        arg_idx := arg_idx + 1;
        curr_idx := curr_idx + |PLACEHOLDER| - 1;
      } else {
        assert rest[1..] == input[curr_idx + 1..];
        Assoc(output, [c], Fill(rest[1..], left));
        output := output + [c];
      }
    }

    method isArgHere() returns (here: bool)
      requires curr_idx < |input|
      ensures here == ArgAt(input, curr_idx)
    {
      if curr_idx + |PLACEHOLDER| > |input| {
        return false;
      }
      here := input[curr_idx] == '$' && input[curr_idx + 1] == '{' && input[curr_idx + 2] == '}';
    }
  }

  // ---------------------------------------------------------------- what filling means

  predicate Plain(word: string) {
    forall i: nat :: i < |word| ==> !ArgAt(word, i)
  }

  /** Texts with a placeholder between each two of them. */
  function Glue(words: seq<string>): string
    requires words != []
  {
    if |words| == 1 then words[0] else words[0] + ("${}" + Glue(words[1..]))
  }

  /** The same texts with the first placeholders replaced by the arguments, as many as there are of both. */
  function Weave(words: seq<string>, args: seq<string>): string
    requires words != []
  {
    if |words| == 1 then words[0]
    else if args == [] then words[0] + ("${}" + Weave(words[1..], []))
    else words[0] + (args[0] + Weave(words[1..], args[1..]))
  }

  /** A placeholder cannot start inside a plain text and end outside it. */
  lemma {:induction false} FillPlain(word: string, rest: string, args: seq<string>)
    requires Plain(word)
    requires rest != "" ==> ArgAt(rest, 0)
    ensures Fill(word + rest, args) == word + Fill(rest, args)
    decreases |word|
  {
    if word == "" {
      assert word + rest == rest;
    } else {
      var input := word + rest;
      assert input[1..] == word[1..] + rest;
      assert rest == "" ==> input == word;
      assert rest != "" ==> input[|word|] == '$';
      assert |word| >= 3 ==> ArgAt(input, 0) == ArgAt(word, 0);
      assert !ArgAt(input, 0);
      assert forall i: nat :: i < |word[1..]| ==> ArgAt(word[1..], i) == ArgAt(word, i + 1);
      FillPlain(word[1..], rest, args);
      Uncons(word);
      Assoc([word[0]], word[1..], Fill(rest, args));
    }
  }

  lemma {:induction false} FillHole(rest: string, args: seq<string>)
    ensures Fill(PLACEHOLDER + rest, args) ==
            if args == [] then PLACEHOLDER + Fill(rest, []) else args[0] + Fill(rest, args[1..])
  {
    var input := PLACEHOLDER + rest;
    assert input[3..] == rest;
    if args == [] {
      assert input[1..][0] == '{' && input[1..][1..][0] == '}' && input[1..][1..][1..] == rest;
      assert Fill(input[1..], args) == ['{'] + Fill(input[1..][1..], args);
      assert Fill(input[1..][1..], args) == ['}'] + Fill(rest, args);
      assert PLACEHOLDER + Fill(rest, []) == ['$'] + (['{'] + (['}'] + Fill(rest, [])));
    }
  }

  /** The first placeholders are replaced, in order, by the arguments; everything else, further placeholders
      included, is copied, and what an argument contains is never looked at. */
  lemma {:induction false} FillWeaves(words: seq<string>, args: seq<string>)
    requires words != [] && forall i :: 0 <= i < |words| ==> Plain(words[i])
    ensures Fill(Glue(words), args) == Weave(words, args)
    decreases |words|
  {
    var word := words[0];
    if |words| == 1 {
      assert word + "" == word;
      FillPlain(word, "", args);
    } else {
      var more := words[1..];
      assert forall i :: 0 <= i < |more| ==> more[i] == words[i + 1];
      FillPlain(word, PLACEHOLDER + Glue(more), args);
      FillHole(Glue(more), args);
      FillWeaves(more, if args == [] then [] else args[1..]);
    }
  }

  /** Every template is plain texts with placeholders between them. */
  lemma {:induction false} Unglue(input: string) returns (words: seq<string>)
    ensures words != [] && Glue(words) == input && forall i :: 0 <= i < |words| ==> Plain(words[i])
    decreases |input|
  {
    if input == "" {
      words := [""];
    } else if ArgAt(input, 0) {
      var more := Unglue(input[3..]);
      words := [""] + more;
      assert words[1..] == more;
      assert input == "" + (PLACEHOLDER + input[3..]);
    } else {
      var more := Unglue(input[1..]);
      var head := [input[0]] + more[0];
      words := [head] + more[1..];
      assert words[1..] == more[1..];
      forall i: nat | i < |head|
        ensures !ArgAt(head, i)
      {
        if i > 0 {
          assert ArgAt(head, i) ==> ArgAt(more[0], i - 1);
        } else if ArgAt(head, 0) {
          GlueStarts(more);
          assert ArgAt(input, 0);
        }
      }
      Uncons(input);
      if |more| > 1 {
        Assoc([input[0]], more[0], PLACEHOLDER + Glue(more[1..]));
      }
    }
  }

  lemma GlueStarts(words: seq<string>)
    requires words != []
    ensures |Glue(words)| >= |words[0]| && Glue(words)[..|words[0]|] == words[0]
  {
  }
}
