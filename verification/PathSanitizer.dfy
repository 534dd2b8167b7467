/** Metric labels: splitting a URL path, masking identifiers, joining it again. */
module PathSanitizers {

  const MASK := "{id}"

  predicate IsHexDigit(c: char) {
    '0' <= c <= '9' || 'a' <= c <= 'f' || 'A' <= c <= 'F'
  }

  predicate IsNumeric(s: string) {
    s != "" && forall i :: 0 <= i < |s| ==> '0' <= s[i] <= '9'
  }

  predicate IsUUID(s: string) {
    |s| == 36 && forall i :: 0 <= i < 36 ==>
      if i == 8 || i == 13 || i == 18 || i == 23 then s[i] == '-' else IsHexDigit(s[i])
  }

  predicate IsHexID(s: string) {
    8 <= |s| <= 64 && forall i :: 0 <= i < |s| ==> IsHexDigit(s[i])
  }

  predicate IsIdentifier(s: string) {
    IsNumeric(s) || IsUUID(s) || IsHexID(s)
  }

  predicate SlashFree(s: string) {
    '/' !in s
  }

  predicate Clean(parts: seq<string>) {
    forall i :: 0 <= i < |parts| ==> parts[i] != "" && SlashFree(parts[i])
  }

  function WithPart(parts: seq<string>, part: string): seq<string> {
    if part == "" then parts else parts + [part]
  }

  /** The completed parts of a path and the one still being read. */
  function Scan(path: string): (seq<string>, string) {
    if path == "" then ([], "")
    else
      var (parts, current) := Scan(path[..|path| - 1]);
      if path[|path| - 1] == '/' then (WithPart(parts, current), "") else (parts, current + [path[|path| - 1]])
  }

  function Split(path: string): seq<string> {
    var (parts, current) := Scan(path);
    WithPart(parts, current)
  }

  function Slashed(parts: seq<string>): string {
    if parts == [] then "" else Slashed(parts[..|parts| - 1]) + "/" + parts[|parts| - 1]
  }

  function Join(parts: seq<string>): string {
    if parts == [] then "/" else Slashed(parts)
  }

  function Masked(parts: seq<string>): seq<string> {
    seq(|parts|, i requires 0 <= i < |parts| => if IsIdentifier(parts[i]) then MASK else parts[i])
  }

  method SplitPath(path: string) returns (parts: seq<string>)
    ensures parts == Split(path)
  {
    parts := [];
    var current := "";
    for i := 0 to |path|
      invariant (parts, current) == Scan(path[..i])
    {
      assert path[..i + 1][..i] == path[..i];
      if path[i] == '/' {
        if current != "" {
          parts := parts + [current];
          current := "";
        }
      } else {
        current := current + [path[i]];
      }
    }
    assert path[..|path|] == path;
    if current != "" {
      parts := parts + [current];
    }
  }

  method JoinPath(parts: seq<string>) returns (path: string)
    ensures path == Join(parts)
  {
    path := "";
    for i := 0 to |parts|
      invariant path == Slashed(parts[..i]) && (i > 0 ==> path != "")
    {
      assert parts[..i + 1][..i] == parts[..i];
      path := path + "/" + parts[i];
    }
    assert parts[..|parts|] == parts;
    if path == "" {
      path := "/";
    }
  }

  method SanitizePath(path: string) returns (sanitized: string)
    ensures sanitized == Sanitized(path)
  {
    if path == "" {
      return "/";
    }
    var parts := SplitPath(path);
    ghost var original := parts;
    for i := 0 to |parts|
      invariant |parts| == |original|
      invariant forall k :: 0 <= k < |parts| ==> parts[k] == if k < i then Masked(original)[k] else original[k]
    {
      if IsIdentifier(parts[i]) {
        parts := parts[i := MASK];
      }
    }
    assert parts == Masked(original);
    sanitized := JoinPath(parts);
  }

  function Sanitized(path: string): string {
    Join(Masked(Split(path)))
  }

  // ----- splitting undoes joining -----

  lemma {:induction false} ScanIsClean(path: string)
    ensures Clean(Scan(path).0) && SlashFree(Scan(path).1)
  {
    if path != "" {
      ScanIsClean(path[..|path| - 1]);
    }
  }

  lemma SplitIsClean(path: string)
    ensures Clean(Split(path))
  {
    ScanIsClean(path);
  }

  lemma {:induction false} ScanWord(path: string, word: string)
    requires SlashFree(word)
    ensures Scan(path + word) == (Scan(path).0, Scan(path).1 + word)
  {
    if word == "" {
      assert path + word == path && Scan(path).1 + word == Scan(path).1;
    } else {
      var last := |word| - 1;
      ScanWord(path, word[..last]);
      assert (path + word)[..|path| + last] == path + word[..last];
      assert Scan(path).1 + word[..last] + [word[last]] == Scan(path).1 + word;
    }
  }

  lemma ScanSlash(path: string)
    ensures Scan(path + "/") == (Split(path), "")
  {
  }

  /** Splitting recovers exactly the parts that were joined, if none is empty or has a slash. */
  lemma {:induction false} SplitUndoesJoin(parts: seq<string>)
    requires Clean(parts)
    ensures Split(Join(parts)) == parts
    ensures parts != [] ==> Scan(Slashed(parts)) == (parts[..|parts| - 1], parts[|parts| - 1])
  {
    if parts == [] {
      ScanSlash("");
      assert "" + "/" == "/";
    } else {
      var init, word := parts[..|parts| - 1], parts[|parts| - 1];
      SplitUndoesJoin(init);
      assert Split(Slashed(init)) == init;
      ScanSlash(Slashed(init));
      ScanWord(Slashed(init) + "/", word);
      assert "" + word == word;
      assert init + [word] == parts;
    }
  }

  lemma MaskedIsClean(parts: seq<string>)
    requires Clean(parts)
    ensures Clean(Masked(parts))
  {
  }

  lemma MaskIsNoIdentifier()
    ensures !IsIdentifier(MASK)
  {
    assert MASK[0] == '{';
  }

  // ----- what an identifier looks like -----

  const HEX_DIGITS := "0123456789" + "abcdef" + "ABCDEF"

  predicate Over(s: string, alphabet: string) {
    forall i :: 0 <= i < |s| ==> s[i] in alphabet
  }

  lemma DigitIff(c: char)
    ensures c in "0123456789" <==> '0' <= c <= '9'
  {
    if '0' <= c <= '9' {
      assert "0123456789"[c as int - 48] == c;
    }
  }

  lemma HexDigitIff(c: char)
    ensures c in HEX_DIGITS <==> IsHexDigit(c)
  {
    DigitIff(c);
    assert c in "abcdef" <==> 'a' <= c <= 'f' by {
      if 'a' <= c <= 'f' {
        assert "abcdef"[c as int - 97] == c;
      }
    }
    assert c in "ABCDEF" <==> 'A' <= c <= 'F' by {
      if 'A' <= c <= 'F' {
        assert "ABCDEF"[c as int - 65] == c;
      }
    }
  }

  /** Five groups of 8, 4, 4, 4 and 12 hex digits. */
  predicate UuidForm(s: string) {
    && |s| == 36 && s[8] == s[13] == s[18] == s[23] == '-'
    && Over(s[..8], HEX_DIGITS) && Over(s[9..13], HEX_DIGITS) && Over(s[14..18], HEX_DIGITS)
    && Over(s[19..23], HEX_DIGITS) && Over(s[24..], HEX_DIGITS)
  }

  lemma GroupIff(s: string, from: nat, to: nat)
    requires from <= to <= |s|
    ensures Over(s[from..to], HEX_DIGITS) <==> forall i :: from <= i < to ==> IsHexDigit(s[i])
  {
    forall i | from <= i < to ensures s[i] in HEX_DIGITS <==> IsHexDigit(s[i]) {
      HexDigitIff(s[i]);
    }
    forall i | 0 <= i < to - from ensures s[from..to][i] == s[from + i] {
    }
    if Over(s[from..to], HEX_DIGITS) {
      forall i | from <= i < to ensures IsHexDigit(s[i]) {
        assert s[from..to][i - from] == s[i];
      }
    }
  }

  lemma UuidIff(s: string)
    ensures IsUUID(s) <==> UuidForm(s)
  {
    if |s| == 36 {
      GroupIff(s, 0, 8);
      GroupIff(s, 9, 13);
      GroupIff(s, 14, 18);
      GroupIff(s, 19, 23);
      GroupIff(s, 24, 36);
    }
  }

  lemma IdentifierIff(s: string)
    ensures IsIdentifier(s) <==>
      || (s != "" && Over(s, "0123456789"))
      || (8 <= |s| <= 64 && Over(s, HEX_DIGITS))
      || UuidForm(s)
  {
    forall i | 0 <= i < |s|
      ensures s[i] in "0123456789" <==> '0' <= s[i] <= '9'
      ensures s[i] in HEX_DIGITS <==> IsHexDigit(s[i])
    {
      DigitIff(s[i]);
      HexDigitIff(s[i]);
    }
    UuidIff(s);
  }

  /** The label of a path and one more segment: the label of the path, and the mask exactly
      if the segment is a decimal number, 8 to 64 hex digits, or a UUID, else the segment. */
  lemma SegmentIsMaskedIff(path: string, segment: string)
    requires segment != "" && SlashFree(segment)
    ensures var masked :=
        || Over(segment, "0123456789")
        || (8 <= |segment| <= 64 && Over(segment, HEX_DIGITS))
        || UuidForm(segment);
      Sanitized(path + "/" + segment)
      == (if Sanitized(path) == "/" then "" else Sanitized(path)) + "/" + (if masked then "{id}" else segment)
  {
    var parts := Split(path);
    ScanSlash(path);
    ScanWord(path + "/", segment);
    assert "" + segment == segment;
    assert Split(path + "/" + segment) == parts + [segment];
    IdentifierIff(segment);
    var last := if IsIdentifier(segment) then MASK else segment;
    assert Masked(parts + [segment]) == Masked(parts) + [last];
    SlashedGrows(Masked(parts), last);
    if parts != [] {
      SplitIsClean(path);
      MaskedIsClean(parts);
      SlashedIsNormal(Masked(parts));
    }
  }

  /** The label has the segments of the path, in order, each identifier masked and every
      other kept. */
  lemma LabelSegments(path: string)
    ensures Split(Sanitized(path)) == Masked(Split(path))
  {
    SplitIsClean(path);
    MaskedIsClean(Split(path));
    SplitUndoesJoin(Masked(Split(path)));
  }

  /** No segment of a label is numeric, a UUID or a hex id. */
  lemma LabelsHaveNoIdentifiers(path: string, i: nat)
    requires i < |Split(Sanitized(path))|
    ensures var segment := Split(Sanitized(path))[i];
      && segment != "" && !IsIdentifier(segment)
      && !Over(segment, "0123456789")
      && !(8 <= |segment| <= 64 && Over(segment, HEX_DIGITS)) && !UuidForm(segment)
  {
    SplitIsClean(Sanitized(path));
    LabelSegments(path);
    MaskIsNoIdentifier();
    IdentifierIff(Split(Sanitized(path))[i]);
  }

  /** Sanitising a label changes nothing. */
  lemma SanitizingIsIdempotent(path: string)
    ensures Sanitized(Sanitized(path)) == Sanitized(path)
  {
    LabelSegments(path);
    forall i | 0 <= i < |Split(path)| ensures !IsIdentifier(Masked(Split(path))[i]) {
      LabelsHaveNoIdentifiers(path, i);
    }
    assert Masked(Masked(Split(path))) == Masked(Split(path));
  }

  /** Two paths share a label exactly when they have as many segments and differ only in
      identifiers: the label loses nothing else but empty segments. */
  lemma SameLabelIff(p: string, q: string)
    ensures Sanitized(p) == Sanitized(q) <==> Masked(Split(p)) == Masked(Split(q))
  {
    LabelSegments(p);
    LabelSegments(q);
  }

  // ----- joining undoes splitting only on normal paths -----

  /** A single slash, or segments each after exactly one slash. */
  predicate Normal(path: string) {
    path == "/" ||
    (path != "" && path[0] == '/' && path[|path| - 1] != '/' &&
     forall i :: 0 < i < |path| ==> !(path[i - 1] == '/' && path[i] == '/'))
  }

  /** A prefix of a normal path, seen in the middle of a segment or just after a slash. */
  predicate NormalSoFar(path: string) {
    path != "" && path[0] == '/' && forall i :: 0 < i < |path| ==> !(path[i - 1] == '/' && path[i] == '/')
  }

  lemma SlashedGrows(parts: seq<string>, part: string)
    ensures Slashed(parts + [part]) == Slashed(parts) + "/" + part
  {
  }

  lemma {:induction false} ScanOfNormal(path: string)
    requires NormalSoFar(path)
    ensures path == Slashed(Scan(path).0) + "/" + Scan(path).1
    ensures path[|path| - 1] != '/' <==> Scan(path).1 != ""
  {
    var init, c := path[..|path| - 1], path[|path| - 1];
    if |path| == 1 {
      assert init == "" && Scan(init) == ([], "");
      assert path == "/" == Slashed([]) + "/" + "";
    } else {
      ScanOfNormal(init);
      var (parts, current) := Scan(init);
      assert path == init + [c];
      if c == '/' {
        assert path[|path| - 2] != '/';
        SlashedGrows(parts, current);
        assert Slashed(parts + [current]) + "/" + "" == Slashed(parts) + "/" + current + "/";
      } else {
        assert Slashed(parts) + "/" + current + [c] == Slashed(parts) + "/" + (current + [c]);
      }
    }
  }

  lemma {:induction false} SlashedIsNormal(parts: seq<string>)
    requires Clean(parts) && parts != []
    ensures NormalSoFar(Slashed(parts)) && Slashed(parts)[|Slashed(parts)| - 1] != '/'
  {
    var init, word := parts[..|parts| - 1], parts[|parts| - 1];
    assert word[|word| - 1] in word;
    if init != [] {
      SlashedIsNormal(init);
    }
    var before := Slashed(init);
    forall i | 0 < i < |Slashed(parts)| ensures !(Slashed(parts)[i - 1] == '/' && Slashed(parts)[i] == '/') {
      if i > |before| {
        assert Slashed(parts)[i] == word[i - |before| - 1];
        assert word[i - |before| - 1] in word;
      } else if i == |before| {
        assert Slashed(parts)[i - 1] == before[i - 1];
      } else {
        assert Slashed(parts)[i - 1] == before[i - 1] && Slashed(parts)[i] == before[i];
      }
    }
  }

  /** Joining gives the path back exactly when it is normal. */
  lemma JoinUndoesSplitIff(path: string)
    ensures Join(Split(path)) == path <==> Normal(path)
  {
    SplitIsClean(path);
    if Normal(path) {
      if path == "/" {
        ScanSlash("");
        assert "" + "/" == path;
      } else {
        ScanOfNormal(path);
        SlashedGrows(Scan(path).0, Scan(path).1);
      }
    }
    if Join(Split(path)) == path && Split(path) != [] {
      SlashedIsNormal(Split(path));
    }
  }
}
