/** Turning one line of user input into a command word and its argument tokens. */
module InputParser {
  import opened Text

  /** A line that is not blank has at least one token. */
  lemma NonBlankHasToken(line: string)
    requires |Strip(line)| > 0
    ensures |Split(line)| > 0
  {
    StripEmptyIff(line);
    SplitEmptyIff(line);
  }

  /** parse_input: ("", []) for an empty or blank line; otherwise the first whitespace-separated
      token, stripped and lower-cased, and the remaining tokens as they are. */
  function ParseInput(userInput: string): (r: (string, seq<string>))
  {
    if |userInput| == 0 || |Strip(userInput)| == 0 then ("", [])
    else
      var tokens := Split(userInput);
      NonBlankHasToken(userInput);
      (Lower(Strip(tokens[0])), tokens[1..])
  }

  /** The command is empty exactly for a blank line, and then there are no arguments either. */
  lemma ParseBlankIff(line: string)
    ensures ParseInput(line).0 == "" <==> AllSpace(line)
    ensures AllSpace(line) ==> ParseInput(line) == ("", [])
  {
    StripEmptyIff(line);
    if !AllSpace(line) {
      var tokens := Split(line);
      NonBlankHasToken(line);
      SplitWords(line);
      StripTrimmed(tokens[0]);
    }
  }

  /** A non-blank line yields its first token lower-cased as the command and the remaining tokens,
      in their order and case, as the arguments. */
  lemma ParseTokens(line: string)
    requires !AllSpace(line)
    ensures |Split(line)| > 0
    ensures ParseInput(line) == (Lower(Split(line)[0]), Split(line)[1..])
  {
    StripEmptyIff(line);
    NonBlankHasToken(line);
    SplitWords(line);
    StripTrimmed(Split(line)[0]);
  }

  /** The command never holds an upper-case letter, and every token handed back, the command
      included, is non-empty and free of whitespace (the command only when the line is not blank). */
  lemma ParseShape(line: string)
    ensures forall i :: 0 <= i < |ParseInput(line).0| ==> !IsUpper(ParseInput(line).0[i])
    ensures !AllSpace(line) ==> IsWord(ParseInput(line).0)
    ensures forall i :: 0 <= i < |ParseInput(line).1| ==> IsWord(ParseInput(line).1[i])
  {
    ParseBlankIff(line);
    if !AllSpace(line) {
      ParseTokens(line);
      SplitWords(line);
      var t := Split(line)[0];
      assert IsWord(t);
      assert forall i :: 0 <= i < |t| ==> Lower(t)[i] == LowerChar(t[i]);
      forall i | 0 <= i < |t| ensures !IsSpace(Lower(t)[i]) {
        assert !IsSpace(t[i]);
      }
      var args := Split(line)[1..];
      forall i | 0 <= i < |args| ensures IsWord(args[i]) {
        assert args[i] == Split(line)[i + 1];
      }
    }
  }

  /** Parsing a line made by joining tokens with single spaces gives the tokens back: the first
      lower-cased as the command, the rest unchanged as the arguments. */
  lemma ParseJoined(tokens: seq<string>)
    requires |tokens| > 0
    requires forall i :: 0 <= i < |tokens| ==> IsWord(tokens[i])
    ensures ParseInput(Join(tokens, " ")) == (Lower(tokens[0]), tokens[1..])
  {
    var line := Join(tokens, " ");
    SplitJoin(tokens);
    JoinStartsWith(tokens, " ");
    assert line[0] == tokens[0][0];
    assert !AllSpace(line);
    ParseTokens(line);
  }

  /** The tokens of the documented example, joined back into its line. */
  lemma ExampleTokens()
    ensures Join(["add", "John", "1234567890"], " ") == "add John 1234567890"
    ensures IsWord("add") && IsWord("John") && IsWord("1234567890")
    ensures Lower("add") == "add"
  {
    var tokens := ["add", "John", "1234567890"];
    assert tokens[1..] == ["John", "1234567890"];
    assert tokens[1..][1..] == ["1234567890"];
  }

  /** The documented example: "add John 1234567890" is the command "add" with two arguments. */
  lemma ParseExample()
    ensures ParseInput("add John 1234567890") == ("add", ["John", "1234567890"])
  {
    var tokens := ["add", "John", "1234567890"];
    ExampleTokens();
    assert forall i :: 0 <= i < |tokens| ==> IsWord(tokens[i]);
    ParseJoined(tokens);
  }
}
