/** Blanking of Rust comments and string literals in place, so that later scans
    of the text see code only, at unchanged positions. */
module MaskSource {
  import opened Tokens
  import opened InnerAttribute

  /** Length of a block comment from just after its opener. */
  function BlockLength(t: string, depth: nat): (n: nat)
    ensures n <= |t|
    decreases |t|
  {
    if t == [] || depth == 0 then 0
    else
      var (inner, used) := BlockTurn(t, depth);
      used + BlockLength(t[used..], inner)
  }

  /** `str.find`. */
  function FindText(t: string, part: string): (r: Option<nat>)
    ensures r.Some? ==> r.value + |part| <= |t|
  {
    if part <= t then Some(0)
    else if t == [] then None
    else
      match FindText(t[1..], part)
      case None => None
      case Some(i) => Some(i + 1)
  }

  /** Length of a raw string literal at the head, 0 if there is none. */
  function RawLength(t: string): (n: nat)
    ensures n <= |t|
  {
    var marker := if "br" <= t then 1 else 0;
    if marker < |t| && t[marker] == 'r' then
      var hashes := HashRun(t[marker + 1..]);
      var cursor := marker + 1 + hashes;
      if cursor < |t| && t[cursor] == '"' then
        match FindText(t[cursor + 1..], "\"" + Hashes(hashes))
        case None => |t|
        case Some(close) => cursor + 1 + close + 1 + hashes
      else 0
    else 0
  }

  /** Length of a string literal from just after its opening quote. */
  function StringLength(t: string, escaped: bool): (n: nat)
    ensures n <= |t|
  {
    if t == [] then 0
    else if escaped then 1 + StringLength(t[1..], false)
    else if t[0] == '"' then 1
    else 1 + StringLength(t[1..], t[0] == '\\')
  }

  /** Length of the comment or string literal at the head, 0 in code. */
  function RegionLength(t: string): (n: nat)
    ensures n <= |t|
  {
    if "//" <= t then |t| - |FromLineEnd(t)|
    else if "/*" <= t then 2 + BlockLength(t[2..], 1)
    else if RawLength(t) > 0 then RawLength(t)
    else if "\"" <= t then 1 + StringLength(t[1..], false)
    else 0
  }

  function Blank(t: string): (r: string)
    ensures |r| == |t|
    ensures forall i | 0 <= i < |t| :: r[i] == if t[i] == '\n' then '\n' else ' '
  {
    seq(|t|, i requires 0 <= i < |t| => if t[i] == '\n' then '\n' else ' ')
  }

  function Masked(t: string): (r: string)
    ensures |r| == |t|
    decreases |t|
  {
    if t == [] then []
    else if RegionLength(t) > 0 then Blank(t[..RegionLength(t)]) + Masked(t[RegionLength(t)..])
    else [t[0]] + Masked(t[1..])
  }

  // ----- The loops -----

  method BlankRange(masked: array<char>, start: nat, end: nat)
    requires start <= end <= masked.Length
    modifies masked
    ensures masked[..] == old(masked[..start] + Blank(masked[start..end]) + masked[end..])
  {
    for position := start to end
      invariant forall i | 0 <= i < start || position <= i < masked.Length :: masked[i] == old(masked[i])
      invariant forall i | start <= i < position :: masked[i] == if old(masked[i]) == '\n' then '\n' else ' '
    {
      if masked[position] != '\n' {
        masked[position] := ' ';
      }
    }
    ghost var was := old(masked[..]);
    assert old(masked[start..end]) == was[start..end];
  }

  lemma BlockTurnLength(t: string, depth: nat)
    requires t != [] && depth > 0
    ensures var (inner, used) := BlockTurn(t, depth);
            BlockLength(t, depth) == used + BlockLength(t[used..], inner)
  {
    hide BlockTurn;
  }

  method BlockEnd(text: string, start: nat) returns (end: nat)
    requires start <= |text|
    ensures end == start + BlockLength(text[start..], 1)
  {
    hide BlockLength;
    end := start;
    var depth := 1;
    while end < |text| && depth > 0
      invariant start <= end <= |text|
      invariant start + BlockLength(text[start..], 1) == end + BlockLength(text[end..], depth)
      decreases |text| - end
    {
      ghost var t := text[end..];
      BlockTurnLength(t, depth);
      if "/*" <= text[end..] {
        depth := depth + 1;
        assert t[2..] == text[end + 2..];
        end := end + 2;
      } else if "*/" <= text[end..] {
        depth := depth - 1;
        assert t[2..] == text[end + 2..];
        end := end + 2;
      } else {
        assert t[1..] == text[end + 1..];
        end := end + 1;
      }
    }
    NoBlockLeft(text[end..], depth);
  }

  lemma NoBlockLeft(t: string, depth: nat)
    requires t == [] || depth == 0
    ensures BlockLength(t, depth) == 0
  {
  }

  method StringEnd(text: string, start: nat) returns (end: nat)
    requires start <= |text|
    ensures end == start + StringLength(text[start..], false)
  {
    end := start;
    var escaped := false;
    while end < |text|
      invariant start <= end <= |text|
      invariant start + StringLength(text[start..], false) == end + StringLength(text[end..], escaped)
    {
      assert text[end..][1..] == text[end + 1..];
      var character := text[end];
      if escaped {
        escaped := false;
      } else if character == '\\' {
        escaped := true;
      } else if character == '"' {
        end := end + 1;
        break;
      }
      end := end + 1;
    }
  }

  method RawEnd(text: string, index: nat) returns (end: nat)
    requires index < |text|
    ensures end == index + RawLength(text[index..])
  {
    hide Hashes, FindText, HashRun;
    ghost var t := text[index..];
    var rawMarker := index;
    if "br" <= text[index..] {
      rawMarker := index + 1;
    }
    if text[rawMarker] == 'r' {
      assert t[rawMarker - index + 1..] == text[rawMarker + 1..];
      var cursor := AfterHashes(text, rawMarker + 1);
      if cursor < |text| && text[cursor] == '"' {
        assert t[cursor - index + 1..] == text[cursor + 1..];
        var delimiter := "\"" + Hashes(cursor - rawMarker - 1);
        var close := FindText(text[cursor + 1..], delimiter);
        return if close.None? then |text| else cursor + 1 + close.value + |delimiter|;
      }
    }
    return index;
  }

  /** The end of the comment or string literal at `index`, or `index` in code. */
  method RegionEnd(text: string, index: nat) returns (end: nat)
    requires index < |text|
    ensures end == index + RegionLength(text[index..])
  {
    hide BlockLength, RawLength, StringLength;
    ghost var t := text[index..];
    if "//" <= text[index..] {
      return |text| - |FromLineEnd(text[index..])|;
    }
    if "/*" <= text[index..] {
      assert t[2..] == text[index + 2..];
      end := BlockEnd(text, index + 2);
      return;
    }
    end := RawEnd(text, index);
    if end == index && text[index] == '"' {
      assert t[1..] == text[index + 1..];
      end := StringEnd(text, index + 1);
    }
  }

  method MaskRustSource(text: string) returns (result: string)
    ensures result == Masked(text)
  {
    hide RegionLength, Masked, Blank;
    var masked := new char[|text|](i requires 0 <= i < |text| => text[i]);
    assert masked[..] == text;
    var index := 0;
    assert text[0..] == text;
    while index < |text|
      invariant 0 <= index <= |text|
      invariant masked[index..] == text[index..]
      invariant Masked(text) == masked[..index] + Masked(text[index..])
    {
      ghost var t := text[index..];
      ghost var done := masked[..index];
      MaskedTurn(t);
      var end := RegionEnd(text, index);
      if end > index {
        ghost var before := masked[..];
        BlankRange(masked, index, end);
        AfterBlank(before, masked[..], index, end);
        index := end;
        continue;
      }
      assert masked[index] == masked[index..][0];
      assert masked[..index + 1] == done + [t[0]];
      assert t[1..] == text[index + 1..];
      index := index + 1;
    }
    assert masked[..] == masked[..index] && Masked(text[index..]) == [];
    return masked[..];
  }

  lemma AfterBlank(before: string, after: string, start: nat, end: nat)
    requires start <= end <= |before| && after == before[..start] + Blank(before[start..end]) + before[end..]
    ensures var t := before[start..];
            && after[..end] == before[..start] + Blank(t[..end - start])
            && after[end..] == t[end - start..] == before[end..]
  {
    hide Blank;
    assert before[start..][..end - start] == before[start..end];
  }

  lemma MaskedTurn(t: string)
    requires t != []
    ensures Masked(t) == if RegionLength(t) > 0 then Blank(t[..RegionLength(t)]) + Masked(t[RegionLength(t)..])
                         else [t[0]] + Masked(t[1..])
  {
  }

  // ----- What masking promises -----

  /** A projection onto blanks: positions and line layout stay, and a character
      is kept or becomes a space. */
  lemma {:induction false} MaskedProjects(t: string)
    ensures |Masked(t)| == |t|
    ensures forall i | 0 <= i < |t| :: Masked(t)[i] == t[i] || (Masked(t)[i] == ' ' && t[i] != '\n')
    decreases |t|
  {
    hide RegionLength;
    if t != [] {
      var n := RegionLength(t);
      if n > 0 {
        MaskedProjects(t[n..]);
      } else {
        MaskedProjects(t[1..]);
      }
    }
  }

  /** No string quote and no comment opener. */
  predicate Clean(t: string) {
    && '"' !in t
    && forall i | 0 <= i < |t| - 1 :: t[i] == '/' ==> t[i + 1] != '/' && t[i + 1] != '*'
  }

  /** The head of a masked text is the head of the text or a space. */
  lemma MaskedHead(t: string)
    requires t != []
    ensures Masked(t)[0] == t[0] || Masked(t)[0] == ' ' || Masked(t)[0] == '\n'
  {
    hide RegionLength;
  }

  lemma {:induction false} MaskedIsClean(t: string)
    ensures Clean(Masked(t))
    decreases |t|
  {
    hide RegionLength;
    if t != [] {
      var n := RegionLength(t);
      if n > 0 {
        MaskedIsClean(t[n..]);
      } else {
        MaskedIsClean(t[1..]);
        CodeHead(t);
        if |t| > 1 {
          MaskedHead(t[1..]);
        }
      }
    }
  }

  /** In code the head is neither a quote nor the first half of an opener. */
  lemma CodeHead(t: string)
    requires t != [] && RegionLength(t) == 0
    ensures t[0] != '"'
    ensures |t| > 1 && t[0] == '/' ==> t[1] != '/' && t[1] != '*'
  {
    hide BlockLength, RawLength, StringLength;
  }

  lemma CleanHasNoRegion(t: string)
    requires t != [] && Clean(t)
    ensures RegionLength(t) == 0
  {
    hide BlockLength, StringLength, FindText, Hashes, HashRun;
    assert t[0] == '/' && |t| > 1 ==> t[1] != '/' && t[1] != '*';
    assert !("//" <= t) && !("/*" <= t);
    assert !("\"" <= t);
    assert RawLength(t) == 0;
  }

  lemma {:induction false} CleanIsFixed(t: string)
    requires Clean(t)
    ensures Masked(t) == t
  {
    hide RegionLength;
    if t != [] {
      CleanHasNoRegion(t);
      assert forall i | 0 <= i < |t[1..]| :: t[1..][i] == t[i + 1];
      CleanIsFixed(t[1..]);
    }
  }

  /** Masking is a projection: masking a masked text changes nothing, and the
      fixed points are exactly the texts without quotes and comment openers. */
  lemma MaskingIsAProjection(t: string)
    ensures Masked(Masked(t)) == Masked(t)
    ensures Masked(t) == t <==> Clean(t)
  {
    MaskedIsClean(t);
    CleanIsFixed(Masked(t));
    if Clean(t) {
      CleanIsFixed(t);
    }
  }
}
