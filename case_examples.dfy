/**
 * Worked inputs for TextCaseChanger's snake case: a camel-case name and a
 * name with mixed separators split into the same words.
 */
module CaseExamples {
  import opened Strings
  import opened CaseChanging

  /** A proof helper: the three example words are words, and the last one
      ends before the end of the text. */
  lemma ThreeWords(hello: string, world: string, example: string)
    requires hello == "Hello" && world == "World" && example == "Example"
    ensures IsWord(hello) && IsWord(world) && IsWord(example)
    ensures EndsWordBefore(example, [])
  {
  }

  lemma CamelWords(s: string, hello: string, world: string, example: string)
    requires hello == "Hello" && world == "World" && example == "Example"
    requires s == hello + world + example
    ensures GetWords(s) == [hello, world, example]
  {
    ThreeWords(hello, world, example);
    assert s == hello + (world + example);
    GetWordsCons(hello, world + example);
    GetWordsCons(world, example + []);
    assert example + [] == example;
    GetWordsCons(example, []);
  }

  lemma SpacedWords(s: string, hello: string, world: string, example: string)
    requires hello == "Hello" && world == "World" && example == "Example"
    requires s == hello + " " + world + "-" + example
    ensures GetWords(s) == [hello, world, example]
  {
    ThreeWords(hello, world, example);
    assert s == hello + ([' '] + (world + (['-'] + example)));
    GetWordsCons(hello, [' '] + (world + (['-'] + example)));
    GetWordsSkip(' ', world + (['-'] + example));
    GetWordsCons(world, ['-'] + example);
    GetWordsSkip('-', example);
    assert example + [] == example;
    GetWordsCons(example, []);
  }

  lemma SnakeOfThreeWords(s: string, hello: string, world: string, example: string)
    requires hello == "Hello" && world == "World" && example == "Example"
    requires GetWords(s) == [hello, world, example]
    ensures ToSnakeCase(s) == "hello_world_example"
  {
    var joined := Join("_", [hello, world, example]);
    assert [hello, world, example][1..] == [world, example];
    assert [world, example][1..] == [example];
    assert Join("_", [example]) == example;
    assert Join("_", [world, example]) == world + "_" + example;
    assert joined == hello + "_" + (world + "_" + example);
    LowerAppend(hello + "_", world + "_" + example);
    LowerAppend(hello, "_");
    LowerAppend(world + "_", example);
    LowerAppend(world, "_");
    Lowered(hello, "hello");
    Lowered(world, "world");
    Lowered(example, "example");
    Lowered("_", "_");
    SnakeSpelling();
  }

  /** A proof helper: the spelling of the expected snake-case result. */
  lemma SnakeSpelling()
    ensures "hello" + "_" + ("world" + "_" + "example") == "hello_world_example"
  {
  }

  /** A proof helper: lower-casing works character by character, so it
      distributes over concatenation. */
  lemma LowerAppend(a: string, b: string)
    ensures ToLower(a + b) == ToLower(a) + ToLower(b)
  {
    var l, r := ToLower(a + b), ToLower(a) + ToLower(b);
    assert forall i :: 0 <= i < |l| ==> l[i] == r[i];
  }

  /** A proof helper: lower-casing a word whose only upper-case letter is
      the first. */
  lemma Lowered(w: string, lw: string)
    requires || (w == "Hello" && lw == "hello")
             || (w == "World" && lw == "world")
             || (w == "Example" && lw == "example")
             || (w == "_" && lw == "_")
    ensures ToLower(w) == lw
  {
    assert w == [w[0]] + w[1..];
    LowerAppend([w[0]], w[1..]);
    LowerOfLower(w[1..]);
    assert ToLower([w[0]]) == [lw[0]];
    assert w[1..] == lw[1..];
  }

  /** A proof helper: text without upper-case letters is its own lower case. */
  lemma LowerOfLower(s: string)
    requires forall i :: 0 <= i < |s| ==> !IsAsciiUpper(s[i])
    ensures ToLower(s) == s
  {
  }

  /** A camel-case name and one with a space and a hyphen give the same
      snake case: "HelloWorldExample" and "Hello World-Example" both give
      "hello_world_example". */
  lemma SnakeCaseExamples(camel: string, spaced: string)
    requires camel == "HelloWorldExample" && spaced == "Hello World-Example"
    ensures ToSnakeCase(camel) == "hello_world_example"
    ensures ToSnakeCase(spaced) == "hello_world_example"
  {
    SnakeOfCamel(camel);
    SnakeOfSpaced(spaced);
  }

  lemma SnakeOfCamel(camel: string)
    requires camel == "HelloWorldExample"
    ensures ToSnakeCase(camel) == "hello_world_example"
  {
    var hello, world, example :| hello == "Hello" && world == "World" && example == "Example";
    CamelSnake(camel, hello, world, example);
  }

  lemma SnakeOfSpaced(spaced: string)
    requires spaced == "Hello World-Example"
    ensures ToSnakeCase(spaced) == "hello_world_example"
  {
    var hello, world, example :| hello == "Hello" && world == "World" && example == "Example";
    SpacedSnake(spaced, hello, world, example);
  }

  lemma CamelSnake(camel: string, hello: string, world: string, example: string)
    requires hello == "Hello" && world == "World" && example == "Example"
    requires camel == hello + world + example
    ensures ToSnakeCase(camel) == "hello_world_example"
  {
    CamelWords(camel, hello, world, example);
    SnakeOfThreeWords(camel, hello, world, example);
  }

  lemma SpacedSnake(spaced: string, hello: string, world: string, example: string)
    requires hello == "Hello" && world == "World" && example == "Example"
    requires spaced == hello + " " + world + "-" + example
    ensures ToSnakeCase(spaced) == "hello_world_example"
  {
    SpacedWords(spaced, hello, world, example);
    SnakeOfThreeWords(spaced, hello, world, example);
  }

  /** Text made only of separators has no words, so camel case gives "":
      "___" gives "". */
  lemma CamelOfSeparatorsOnly(s: string)
    requires s == "___"
    ensures GetWords(s) == [] && ToCamelCase(s) == []
  {
    GetWordsSkip('_', s[1..]);
    GetWordsSkip('_', s[2..]);
    GetWordsSkip('_', s[3..]);
    assert s == [s[0]] + s[1..];
    assert s[1..] == [s[1]] + s[2..];
    assert s[2..] == [s[2]] + s[3..];
  }
}
