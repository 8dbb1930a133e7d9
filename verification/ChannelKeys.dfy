/** How a channel stores its keys in one text column, and the two ways the
    controllers append keys to it: UpdateChannel (controller/channel.go) and the
    conversion to multi-key mode (controller/channel_multikey_conversion.go). */
module ChannelKeys {
  import opened Common
  import opened Lists
  import opened Text

  /** The JSON array parser is left open, but for one thing: the text of an array
      has room for its elements as they stand, the commas and the brackets. */
  type JsonArray = p: string -> Option<seq<string>>
    | forall text :: p(text).Some? ==> |Join(p(text).value, ',')| + 2 <= |text|
    witness (text: string) => None

  function Lines(text: string): (lines: seq<string>)
    ensures forall l :: l in lines ==> '\n' !in l
  {
    Split(Trim(text, c => c == '\n'), '\n')
  }

  function GetKeys(parse: JsonArray, text: string): (keys: seq<string>) {
    if text == "" then []
    else if ParsesAsArray(parse, text) then parse(TrimSpace(text)).value
    else Lines(text)
  }

  predicate ParsesAsArray(parse: JsonArray, text: string) {
    LooksLikeArray(text) && parse(TrimSpace(text)).Some?
  }

  /** Lists that survive storage as lines of one text. */
  predicate Storable(parse: JsonArray, keys: seq<string>) {
    && keys != [] && keys[0] != "" && keys[|keys| - 1] != ""
    && (forall k :: k in keys ==> '\n' !in k)
    && !ParsesAsArray(parse, Join(keys, '\n'))
  }

  /** No list of lines is the array that its own text parses as. */
  lemma LinesAreNoArray(parse: JsonArray, keys: seq<string>)
    requires ParsesAsArray(parse, Join(keys, '\n'))
    ensures parse(TrimSpace(Join(keys, '\n'))).value != keys
  {
    var text := Join(keys, '\n');
    assert |TrimSpace(text)| <= |TrimLeft(text, IsSpace)| <= |text|;
    JoinLength(keys, '\n', ',');
  }

  /** Keys written to the column are read back unchanged if and only if they are
      storable. */
  lemma StoredKeysReadBackIff(parse: JsonArray, keys: seq<string>)
    ensures Join(keys, '\n') != "" && GetKeys(parse, Join(keys, '\n')) == keys <==> Storable(parse, keys)
  {
    if ParsesAsArray(parse, Join(keys, '\n')) {
      LinesAreNoArray(parse, keys);
    } else if Storable(parse, keys) {
      StoredListReadsBack(keys, '\n');
    } else if Join(keys, '\n') != "" && Lines(Join(keys, '\n')) == keys {
      ReadBackIsStorable(keys, '\n');
    }
  }

  // ---- Appending in UpdateChannel -----------------------------------------------

  /** First occurrences of the keys that are not there yet. */
  function Fresh(keys: seq<string>, existing: seq<string>): (r: seq<string>) {
    Filter(Uniq(keys), k => k !in existing)
  }

  lemma FreshSnoc(keys: seq<string>, last: string, existing: seq<string>)
    ensures Fresh(keys + [last], existing) == Fresh(keys, existing) + (if last in keys || last in existing then [] else [last])
  {
    UniqSnoc(keys, last);
    FilterSnoc(Uniq(keys), last, k => k !in existing);
  }

  /** The list UpdateChannel stores for a plain (newline separated) channel: the
      existing lines untouched, then the new keys not among them. */
  function Appended(existing: seq<string>, input: string): (all: seq<string>) {
    existing + Fresh(Pieces(Split(input, '\n')), Pieces(existing))
  }

  /** Trims and drops blank lines, in a loop. */
  method CollectPieces(lines: seq<string>) returns (pieces: seq<string>)
    ensures pieces == Pieces(lines)
  {
    pieces := [];
    for i := 0 to |lines|
      invariant pieces == Pieces(lines[..i])
    {
      var piece := TrimSpace(lines[i]);
      assert lines[..i + 1] == lines[..i] + [lines[i]];
      PiecesSnoc(lines[..i], lines[i]);
      if piece != "" {
        pieces := pieces + [piece];
      }
    }
    assert lines[..|lines|] == lines;
  }

  /** The keys already in the channel, as a set. */
  method CollectSeen(existing: seq<string>) returns (seen: set<string>)
    ensures forall k :: k in seen <==> k in Pieces(existing)
  {
    seen := {};
    ghost var done: seq<string> := [];
    for i := 0 to |existing|
      invariant done == existing[..i] && forall k :: k in seen <==> k in Pieces(done)
    {
      var normalized := TrimSpace(existing[i]);
      PiecesSnoc(done, existing[i]);
      done := done + [existing[i]];
      if normalized != "" {
        seen := seen + {normalized};
      }
    }
    assert done == existing;
  }

  /** The new keys not seen before, first occurrences only. */
  method Deduplicate(existing: seq<string>, newKeys: seq<string>, start: set<string>) returns (deduped: seq<string>)
    requires forall k :: k in start <==> k in existing
    requires forall k :: k in newKeys ==> k != "" && Clean(k, IsSpace)
    ensures deduped == Fresh(newKeys, existing)
  {
    var seen := start;
    deduped := [];
    for i := 0 to |newKeys|
      invariant deduped == Fresh(newKeys[..i], existing)
      invariant forall k :: k in seen <==> k in existing || k in newKeys[..i]
    {
      var normalized := TrimSpace(newKeys[i]);
      assert newKeys[i] in newKeys;
      assert newKeys[..i + 1] == newKeys[..i] + [newKeys[i]];
      FreshSnoc(newKeys[..i], newKeys[i], existing);
      if normalized != "" && normalized !in seen {
        seen := seen + {normalized};
        deduped := deduped + [normalized];
      }
    }
    assert newKeys[..|newKeys|] == newKeys;
  }

  predicate LooksLikeArray(text: string) {
    HasPrefix(TrimSpace(text), "[")
  }

  /** The existing keys as the append branch reads them. Unlike GetKeys it does
      not fall back to lines when a text that looks like an array is none. */
  function Existing(parse: JsonArray, text: string): (keys: seq<string>) {
    if !LooksLikeArray(text) then Lines(text)
    else if parse(TrimSpace(text)).Some? then parse(TrimSpace(text)).value
    else []
  }

  /** The append branch starts from the channel's real keys if and only if the
      stored text does not merely look like a JSON array; otherwise they are
      dropped. */
  lemma ExistingAreTheKeysIff(parse: JsonArray, text: string)
    requires text != ""
    ensures Existing(parse, text) == GetKeys(parse, text) <==> !LooksLikeArray(text) || parse(TrimSpace(text)).Some?
  {
    assert |Lines(text)| >= 1;
  }

  /** The append branch for a channel that is not Vertex AI; a channel without
      any key takes the request's text as it is. */
  method AppendKeys(parse: JsonArray, originKey: string, input: string) returns (text: string)
    ensures text == if originKey == "" then input else Join(Appended(Existing(parse, originKey), input), '\n')
  {
    if originKey == "" { return input; }
    var existing := Existing(parse, originKey);
    var newKeys := CollectPieces(Split(input, '\n'));
    PiecesClean(Split(input, '\n'));
    var seen := CollectSeen(existing);
    var deduped := Deduplicate(Pieces(existing), newKeys, seen);
    text := Join(existing + deduped, '\n');
  }

  lemma FreshAreFilled(input: string, existing: seq<string>)
    ensures forall k :: k in Fresh(Pieces(Split(input, '\n')), existing) ==> k != "" && '\n' !in k
  {
    var pieces := Pieces(Split(input, '\n'));
    PiecesClean(Split(input, '\n'));
    PiecesFree(Split(input, '\n'), '\n');
    UniqMembers(pieces);
    FilterMembers(Uniq(pieces), k => k !in existing);
  }

  /** Existing keys that a text of lines can hold, with the given keys behind them. */
  predicate CanBeExtended(existing: seq<string>, added: seq<string>) {
    && (forall k :: k in existing ==> '\n' !in k)
    && (existing == [] || existing[0] != "")
    && if added == [] then existing != [] && existing[|existing| - 1] != "" else true
  }

  /** The text stored by the append branch reads back as the appended list if and
      only if no existing key holds a line break (as an element of a pretty-printed
      JSON array does), none at the ends is empty, and the new text does not parse
      as an array. What the input adds is never in the way. */
  lemma AppendReadsBackIff(parse: JsonArray, originKey: string, input: string)
    ensures var existing := Existing(parse, originKey); var all := Appended(existing, input);
      Join(all, '\n') != "" && GetKeys(parse, Join(all, '\n')) == all
      <==> CanBeExtended(existing, Fresh(Pieces(Split(input, '\n')), Pieces(existing))) && !ParsesAsArray(parse, Join(all, '\n'))
  {
    var existing := Existing(parse, originKey);
    var added := Fresh(Pieces(Split(input, '\n')), Pieces(existing));
    FreshAreFilled(input, Pieces(existing));
    StorableExtension(parse, existing, added);
    StoredKeysReadBackIff(parse, existing + added);
  }

  lemma StorableExtension(parse: JsonArray, existing: seq<string>, added: seq<string>)
    requires forall k :: k in added ==> k != "" && '\n' !in k
    ensures Storable(parse, existing + added) <==> CanBeExtended(existing, added) && !ParsesAsArray(parse, Join(existing + added, '\n'))
  {
    var all := existing + added;
    assert forall k :: k in all <==> k in existing || k in added;
    if added != [] {
      assert added[0] in added && added[|added| - 1] in added && all[|all| - 1] == added[|added| - 1];
    }
  }

  // ---- Conversion to multi-key mode ---------------------------------------------

  const VERTEX_AI := 41
  const CODEX := 57

  datatype ConvertRequest = ConvertRequest(channelType: int, key: string, mode: Option<string>, keyMode: Option<string>)
  datatype Origin = Origin(channelType: int, key: string, source: string)
  datatype Converted =
    | Converted(key: string, size: nat, mode: string)
    | UnsupportedType | ManagedChannel | BadMode | BadKeyMode | BlankReplacement | NoKeys

  function KeyMode(request: ConvertRequest): string {
    if request.keyMode.Some? then request.keyMode.value else "append"
  }

  function KeyText(request: ConvertRequest, origin: Origin): string {
    if KeyMode(request) == "append" then origin.key + "\n" + request.key else request.key
  }

  function ConvertedKeys(text: string): (keys: seq<string>)
    ensures Distinct(keys) && forall k :: k in keys ==> k != "" && Clean(k, IsSpace) && '\n' !in k
  {
    PiecesFree(Split(text, '\n'), '\n');
    PiecesClean(Split(text, '\n'));
    UniqMembers(Pieces(Split(text, '\n')));
    Uniq(Pieces(Split(text, '\n')))
  }

  predicate Unsupported(request: ConvertRequest, origin: Origin) {
    || request.channelType == CODEX || request.channelType == VERTEX_AI
    || origin.channelType == CODEX || origin.channelType == VERTEX_AI
  }

  predicate UnknownMode(request: ConvertRequest) {
    request.mode.Some? && request.mode.value != "random" && request.mode.value != "polling"
  }

  predicate UnknownKeyMode(request: ConvertRequest) {
    KeyMode(request) != "append" && KeyMode(request) != "replace"
  }

  predicate Blank(request: ConvertRequest) {
    KeyMode(request) == "replace" && TrimSpace(request.key) == ""
  }

  predicate Refused(request: ConvertRequest, origin: Origin) {
    || Unsupported(request, origin)
    || origin.source == "ionet"
    || UnknownMode(request) || UnknownKeyMode(request)
    || ConvertedKeys(KeyText(request, origin)) == []
  }

  lemma MergeSnoc(lines: seq<string>, last: string)
    ensures var key := TrimSpace(last); var keys := Uniq(Pieces(lines));
            Uniq(Pieces(lines + [last])) == keys + (if key == "" || key in keys then [] else [key])
  {
    PiecesSnoc(lines, last);
    var pieces, key := Pieces(lines), TrimSpace(last);
    UniqSnoc(pieces, key);
    assert pieces + [] == pieces;
  }

  /** The merge loop of the conversion. */
  method MergeLines(lines: seq<string>) returns (keys: seq<string>)
    ensures keys == Uniq(Pieces(lines))
  {
    keys := [];
    var seen: set<string> := {};
    ghost var done: seq<string> := [];
    for i := 0 to |lines|
      invariant done == lines[..i] && keys == Uniq(Pieces(done))
      invariant forall k :: k in seen <==> k in keys
    {
      var key := TrimSpace(lines[i]);
      MergeSnoc(done, lines[i]);
      done := done + [lines[i]];
      if key == "" || key in seen { continue; }
      seen := seen + {key};
      keys := keys + [key];
    }
    assert done == lines;
  }

  method ConvertToMultiKey(request: ConvertRequest, origin: Origin) returns (r: Converted)
    ensures r.Converted? <==> !Refused(request, origin)
    ensures r == UnsupportedType <==> request.channelType in {41, 57} || origin.channelType in {41, 57}
    ensures var open := request.channelType !in {41, 57} && origin.channelType !in {41, 57};
      && (r == ManagedChannel <==> open && origin.source == "ionet")
      && (r == BadMode <==> open && origin.source != "ionet" && request.mode !in {None, Some("random"), Some("polling")})
    ensures var known := request.channelType !in {41, 57} && origin.channelType !in {41, 57} && origin.source != "ionet"
                         && request.mode in {None, Some("random"), Some("polling")};
      && (r == BadKeyMode <==> known && request.keyMode !in {None, Some("append"), Some("replace")})
      && (r == BlankReplacement <==> known && request.keyMode == Some("replace") && TrimSpace(request.key) == "")
      && (r == NoKeys <==> known && !UnknownKeyMode(request) && !Blank(request) && ConvertedKeys(KeyText(request, origin)) == [])
    ensures r.Converted? ==>
      var keys := ConvertedKeys(KeyText(request, origin));
      r.key == Join(keys, '\n') && r.size == |keys| && r.mode == (if request.mode.Some? then request.mode.value else "random")
  {
    if origin.channelType == CODEX || origin.channelType == VERTEX_AI || request.channelType == CODEX || request.channelType == VERTEX_AI {
      return UnsupportedType;
    }
    if origin.source == "ionet" { return ManagedChannel; }
    var mode := if request.mode.Some? then request.mode.value else "random";
    if mode != "random" && mode != "polling" { return BadMode; }
    var keyMode := KeyMode(request);
    if keyMode != "append" && keyMode != "replace" { return BadKeyMode; }
    if keyMode == "replace" && TrimSpace(request.key) == "" {
      BlankTextHasNoPieces(request.key, '\n');
      return BlankReplacement;
    }
    var keys := MergeLines(Split(KeyText(request, origin), '\n'));
    if keys == [] { return NoKeys; }
    return Converted(Join(keys, '\n'), |keys|, mode);
  }

  // ---- The two ways agree -------------------------------------------------------

  /** Existing lines that a merge would leave as they are. */
  predicate Tidy(lines: seq<string>) {
    Distinct(lines) && forall l :: l in lines ==> l != "" && Clean(l, IsSpace)
  }

  lemma TidyIff(lines: seq<string>)
    ensures Uniq(Pieces(lines)) == lines <==> Tidy(lines)
  {
    PiecesClean(lines);
    UniqMembers(Pieces(lines));
    if Tidy(lines) {
      PiecesOfTidy(lines);
      UniqDistinct(lines);
    }
  }

  /** Conversion in append mode is: the existing pieces, first occurrences only,
      followed by what the input adds. */
  lemma ConversionSplits(originKey: string, input: string)
    ensures ConvertedKeys(originKey + "\n" + input)
         == Uniq(Pieces(Lines(originKey))) + Fresh(Pieces(Split(input, '\n')), Pieces(Lines(originKey)))
  {
    SplitAt(originKey, input, '\n');
    PiecesConcat(Split(originKey, '\n'), Split(input, '\n'));
    TrimKeepsPieces(originKey, '\n');
    UniqConcat(Pieces(Lines(originKey)), Pieces(Split(input, '\n')));
  }

  /** The keys of a conversion. Without a key mode, or in append mode, all existing
      pieces come first, first occurrences only, and then what the request adds; in
      replace mode only the pieces of the request are left. */
  lemma ConversionKeys(request: ConvertRequest, origin: Origin)
    ensures request.keyMode == None || request.keyMode == Some("append") ==>
      ConvertedKeys(KeyText(request, origin))
      == Uniq(Pieces(Split(origin.key, '\n'))) + Fresh(Pieces(Split(request.key, '\n')), Pieces(Split(origin.key, '\n')))
    ensures request.keyMode == Some("replace") ==> ConvertedKeys(KeyText(request, origin)) == Uniq(Pieces(Split(request.key, '\n')))
  {
    ConversionSplits(origin.key, request.key);
    TrimKeepsPieces(origin.key, '\n');
  }

  /** For every plain text and every input, the two append paths produce the
      same key list if and only if the existing lines are trimmed, non-blank and
      distinct. */
  lemma AppendPathsAgreeIff(parse: JsonArray, originKey: string, input: string)
    requires !LooksLikeArray(originKey)
    ensures Appended(Existing(parse, originKey), input) == ConvertedKeys(originKey + "\n" + input) <==> Tidy(Lines(originKey))
  {
    var existing := Lines(originKey);
    var added := Fresh(Pieces(Split(input, '\n')), Pieces(existing));
    ConversionSplits(originKey, input);
    TidyIff(existing);
    var settled := Uniq(Pieces(existing));
    if existing + added == settled + added {
      assert |existing| == |settled|;
      assert existing == (existing + added)[..|existing|] == (settled + added)[..|settled|] == settled;
    }
  }

  lemma FilledLinesReadBackIff(parse: JsonArray, keys: seq<string>)
    requires forall k :: k in keys ==> k != "" && '\n' !in k
    ensures GetKeys(parse, Join(keys, '\n')) == keys <==> !ParsesAsArray(parse, Join(keys, '\n'))
  {
    if keys != [] {
      assert keys[0] in keys && keys[|keys| - 1] in keys;
      StoredKeysReadBackIff(parse, keys);
      JoinEnds(keys, '\n');
    }
  }

  /** What a conversion stores is what the channel later reads, exactly the
      MultiKeySize distinct non-blank keys it merged, if and only if the text does not
      happen to parse as a JSON array. */
  lemma ConversionReadsBackIff(parse: JsonArray, text: string)
    ensures var keys := ConvertedKeys(text); var read := GetKeys(parse, Join(keys, '\n'));
            read == keys <==> !ParsesAsArray(parse, Join(keys, '\n'))
  {
    FilledLinesReadBackIff(parse, ConvertedKeys(text));
  }
}
