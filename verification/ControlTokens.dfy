/** The control-token template of src/control-tokens.mts: printer and parser. */
module ControlTokens {
  import opened Text
  import opened Framing

  datatype Role = Assistant | System | User

  datatype Message = Message(role: Role, content: string)

  const END := "$END"

  function TokenOf(role: Role): string {
    match role
    case Assistant => "$MODEL"
    case System => "$SYSTEM"
    case User => "$USER"
  }

  function RoleByToken(token: string): Option<Role> {
    if token == "$MODEL" then Some(Assistant)
    else if token == "$SYSTEM" then Some(System)
    else if token == "$USER" then Some(User)
    else None
  }

  // ---------- printing ----------

  function FormatMessage(m: Message): string {
    TokenOf(m.role) + "\n" + m.content + "\n" + END
  }

  /** `join('\n')`. */
  function Join(lines: seq<string>): string {
    if lines == [] then "" else if |lines| == 1 then lines[0] else lines[0] + "\n" + Join(lines[1..])
  }

  function Blocks(messages: seq<Message>): seq<string> {
    seq(|messages|, i requires 0 <= i < |messages| => FormatMessage(messages[i]))
  }

  function Format(messages: seq<Message>): string {
    Join(Blocks(messages))
  }

  method FormatControlTokens(messages: seq<Message>) returns (template: string)
    ensures template == Format(messages)
  {
    var blocks := [];
    for i := 0 to |messages|
      invariant blocks == Blocks(messages)[..i]
    {
      blocks := blocks + [FormatMessage(messages[i])];
    }
    assert Blocks(messages)[..|messages|] == Blocks(messages);
    template := Join(blocks);
  }

  // ---------- parsing ----------

  function StripCr(line: string): string {
    if line != [] && line[|line| - 1] == '\r' then line[..|line| - 1] else line
  }

  function StripAll(lines: seq<string>): seq<string> {
    seq(|lines|, i requires 0 <= i < |lines| => StripCr(lines[i]))
  }

  /** `split(/\r?\n/)`. */
  function SplitLines(text: string): (lines: seq<string>)
    ensures lines != []
  {
    StripAll(Lines(text)) + [Tail(text)]
  }

  /** What the parser holds between two lines. */
  datatype Parser = Parser(role: Option<Role>, lines: seq<string>, messages: seq<Message>)

  const IDLE: Parser := Parser(None, [], [])

  function Flush(p: Parser): Parser {
    var content := Trim(Join(p.lines));
    if p.role.Some? && content != "" then Parser(None, [], p.messages + [Message(p.role.value, content)])
    else Parser(None, [], p.messages)
  }

  function Read(p: Parser, rawLine: string): Parser {
    var token := Trim(rawLine);
    if RoleByToken(token).Some? then Flush(p).(role := RoleByToken(token))
    else if token == END then Flush(p)
    else if p.role.Some? then p.(lines := p.lines + [rawLine])
    else p
  }

  function ReadAll(p: Parser, lines: seq<string>): Parser
    decreases |lines|
  {
    if lines == [] then p else ReadAll(Read(p, lines[0]), lines[1..])
  }

  function Parse(template: string): seq<Message> {
    Flush(ReadAll(IDLE, SplitLines(template))).messages
  }

  /** The variables the `flush` closure shares with the loop. */
  class TemplateParser {
    var role: Option<Role>
    var lines: seq<string>
    var messages: seq<Message>

    ghost function State(): Parser
      reads this
    {
      Parser(role, lines, messages)
    }

    constructor ()
      ensures State() == IDLE
    {
      role, lines, messages := None, [], [];
    }

    method FlushBlock()
      modifies this
      ensures State() == Flush(old(State()))
    {
      if role.Some? {
        var content := Trim(Join(lines));
        if content != "" {
          messages := messages + [Message(role.value, content)];
        }
      }
      role := None;
      lines := [];
    }

    method ReadLine(rawLine: string)
      modifies this
      ensures State() == Read(old(State()), rawLine)
    {
      var token := Trim(rawLine);
      var nextRole := RoleByToken(token);
      if nextRole.Some? {
        FlushBlock();
        role := nextRole;
      } else if token == END {
        FlushBlock();
      } else if role.Some? {
        lines := lines + [rawLine];
      }
    }
  }

  method ParseControlTokens(template: string) returns (messages: seq<Message>)
    ensures messages == Parse(template)
  {
    hide Read, Flush, SplitLines;
    var parser := new TemplateParser();
    var sourceLines := SplitLines(template);
    for i := 0 to |sourceLines|
      invariant fresh(parser)
      invariant ReadAll(parser.State(), sourceLines[i..]) == ReadAll(IDLE, sourceLines)
    {
      assert sourceLines[i..][0] == sourceLines[i] && sourceLines[i..][1..] == sourceLines[i + 1..];
      parser.ReadLine(sourceLines[i]);
    }
    parser.FlushBlock();
    messages := parser.messages;
  }
}
