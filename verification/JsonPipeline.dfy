/** The hardening around a model's JSON reply in src/json.mts: code fences, the prefill, and
    the staged fallback parse. */
module JsonPipeline {
  import opened Text
  import opened JsonText
  import JsonRepair
  import opened JsonKeys

  const FENCE := "```"

  // ---------- extractJsonFence ----------

  function Later(k: Option<nat>, n: nat): Option<nat> {
    if k.Some? then Some(k.value + n) else None
  }

  /** Where the first line starts that is, trimmed, a bare fence. */
  function FirstFence(text: string): (k: Option<nat>)
    ensures k.Some? ==> k.value < |text|
    decreases |text|
  {
    if text == [] then None
    else
      var newline := IndexOf(text, '\n');
      if Trim(if newline == -1 then text else text[..newline]) == FENCE then Some(0)
      else if newline == -1 then None
      else Later(FirstFence(text[newline + 1..]), newline + 1)
  }

  predicate OpensFence(line: string) {
    TrimEnd(line) == FENCE || TrimEnd(line) == FENCE + "json"
  }

  function ExtractFence(raw: string): Option<string> {
    var trimmed := Trim(raw);
    var openingEnd := IndexOf(trimmed, '\n');
    if openingEnd == -1 || !OpensFence(trimmed[..openingEnd]) then None
    else
      var content := trimmed[openingEnd + 1..];
      match FirstFence(content)
      case Some(k) => Some(Trim(content[..k]))
      case None => None
  }

  method ExtractJsonFence(raw: string) returns (content: Option<string>)
    ensures content == ExtractFence(raw)
  {
    hide Trim, TrimEnd, IndexOf, FirstFence;
    var trimmed := Trim(raw);
    var openingEnd := IndexOf(trimmed, '\n');
    if openingEnd == -1 {
      return None;
    }
    var opening := TrimEnd(trimmed[..openingEnd]);
    if opening != FENCE && opening != FENCE + "json" {
      return None;
    }
    var contentStart := openingEnd + 1;
    var lineStart := contentStart;
    ghost var inside := trimmed[contentStart..];
    while lineStart < |trimmed|
      invariant contentStart <= lineStart <= |trimmed|
      invariant FirstFence(inside) == Later(FirstFence(trimmed[lineStart..]), lineStart - contentStart)
      decreases |trimmed| - lineStart
    {
      var newline := IndexOf(trimmed[lineStart..], '\n');
      var lineEnd := if newline == -1 then |trimmed| else lineStart + newline;
      SplitLine(trimmed, lineStart, lineEnd);
      if Trim(trimmed[lineStart..lineEnd]) == FENCE {
        FenceHere(trimmed[lineStart..]);
        assert inside[..lineStart - contentStart] == trimmed[contentStart..lineStart];
        return Some(Trim(trimmed[contentStart..lineStart]));
      }
      if newline == -1 {
        NoFenceLeft(trimmed[lineStart..]);
        return None;
      }
      FenceLater(trimmed[lineStart..]);
      lineStart := lineEnd + 1;
    }
    NextFence(trimmed[lineStart..]);
    return None;
  }

  lemma FenceHere(text: string)
    requires text != []
    requires Trim(if IndexOf(text, '\n') == -1 then text else text[..IndexOf(text, '\n')]) == FENCE
    ensures FirstFence(text) == Some(0)
  {
    hide Trim, IndexOf;
  }

  lemma FenceLater(text: string)
    requires IndexOf(text, '\n') != -1 && Trim(text[..IndexOf(text, '\n')]) != FENCE
    ensures FirstFence(text) == Later(FirstFence(text[IndexOf(text, '\n') + 1..]), IndexOf(text, '\n') + 1)
  {
    hide Trim, IndexOf;
  }

  lemma NoFenceLeft(text: string)
    requires IndexOf(text, '\n') == -1 && Trim(text) != FENCE
    ensures FirstFence(text) == None
  {
    hide Trim, IndexOf;
  }

  lemma SplitLine(text: string, from: nat, to: nat)
    requires from <= to <= |text|
    ensures text[from..][..to - from] == text[from..to]
    ensures to == |text| ==> text[from..to] == text[from..]
    ensures to < |text| ==> text[from..][to - from + 1..] == text[to + 1..]
  {
  }

  /** The first line decides, or the rest does. */
  lemma NextFence(text: string)
    ensures text == [] ==> FirstFence(text) == None
    ensures text != [] ==>
      var newline := IndexOf(text, '\n');
      var line := if newline == -1 then text else text[..newline];
      FirstFence(text) ==
        if Trim(line) == FENCE then Some(0)
        else if newline == -1 then None
        else Later(FirstFence(text[newline + 1..]), newline + 1)
  {
  }

  // ---------- mergePrefill ----------

  predicate IsParseableJson(text: string) {
    ParseJson(text).Some?
  }

  function MergePrefill(prefill: string, raw: string): string {
    var trimmed := TrimStart(raw);
    if ExtractFence(trimmed).Some? then raw
    else if TrimEnd(prefill) <= trimmed then raw
    else if !IsParseableJson(trimmed) && IsParseableJson(prefill + raw) then prefill + raw
    else if "{" <= trimmed || "[" <= trimmed then raw
    else prefill + raw
  }

  // ---------- parseJsonWithFallback ----------

  predicate IsTypographic(c: char) {
    || c == '\U{FF0C}' || c == '\U{FF1A}' || c == '\U{FF1B}'
    || c == '\U{201C}' || c == '\U{201D}' || c == '\U{2018}' || c == '\U{2019}'
  }

  function NormalizeChar(c: char): char {
    if c == '\U{FF0C}' then ','
    else if c == '\U{FF1A}' then ':'
    else if c == '\U{FF1B}' then ';'
    else if c == '\U{201C}' || c == '\U{201D}' then '"'
    else if c == '\U{2018}' || c == '\U{2019}' then '\''
    else c
  }

  function NormalizeJsonPunctuation(raw: string): string {
    seq(|raw|, i requires 0 <= i < |raw| => NormalizeChar(raw[i]))
  }

  predicate StartsEscapedQuote(s: string) {
    |s| >= 2 && s[0] == '\\' && s[1] == '"'
  }

  function UnescapeJsonQuotes(raw: string): string {
    if raw == [] then ""
    else if StartsEscapedQuote(raw) then "\"" + UnescapeJsonQuotes(raw[2..])
    else [raw[0]] + UnescapeJsonQuotes(raw[1..])
  }

  /** The four parses, each tried when the one before it failed. */
  function ParseStages(text: string): Option<Json> {
    var normalized := NormalizeJsonPunctuation(text);
    var unescaped := UnescapeJsonQuotes(normalized);
    if ParseJson(text).Some? then ParseJson(text)
    else if ParseJson(normalized).Some? then ParseJson(normalized)
    else if ParseJson(unescaped).Some? then ParseJson(unescaped)
    else ParseJson(JsonRepair.Repair(unescaped))
  }

  /** The text the parses run on: the reply without a surrounding fence. */
  function ReplyBody(raw: string): string {
    var trimmed := Trim(raw);
    match ExtractFence(trimmed)
    case Some(fenced) => fenced
    case None => trimmed
  }

  function Canonical(v: Json, synonyms: Option<seq<Entry>>, lower: Lower): Json {
    match synonyms
    case Some(entries) => NormalizeKeys(v, entries, lower)
    case None => v
  }

  /** What the schema is given, or None where the last parse throws. */
  function ParseJsonWithFallback(raw: string, synonyms: Option<seq<Entry>>, lower: Lower): Option<Json> {
    match ParseStages(ReplyBody(raw))
    case Some(v) => Some(Canonical(v, synonyms, lower))
    case None => None
  }
}
