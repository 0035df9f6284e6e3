/**
  Ticket identifiers, cleaned display titles, validation URLs and record ids, as the
  three ticket services build them (lib/ticket-service.ts, lib/ticket-service-vercel.ts,
  lib/ticket-service-supabase.ts). Time and randomness arrive as parameters.
 */
module TicketIds {
  import opened Wrappers
  import opened Text
  import Seqs

  // ---------------------------------------------------------------------------
  // Slugs: the lower-cased alphanumerics of a title, read left to right.

  /** The lower-cased alphanumerics of `s`, in order. */
  function Slug(s: string): (r: string)
    ensures forall c :: c in r ==> IsLowerAlnum(c)
  {
    if |s| == 0 then ""
    else (if IsAlnum(s[0]) then [LowerChar(s[0])] else "") + Slug(s[1..])
  }

  /** At most the first `n` characters of `Slug(s)`. */
  function SlugPrefix(s: string, n: nat): (r: string)
    ensures |r| <= n
    ensures forall c :: c in r ==> IsLowerAlnum(c)
  {
    if n == 0 || |s| == 0 then ""
    else if IsAlnum(s[0]) then [LowerChar(s[0])] + SlugPrefix(s[1..], n - 1)
    else SlugPrefix(s[1..], n)
  }

  lemma AlnumOnlyCons(c: char, s: string)
    ensures AlnumOnly([c] + s) == (if IsAlnum(c) then [c] else []) + AlnumOnly(s)
  {
    assert ([c] + s)[1..] == s;
  }

  /** `Slug` is `s.replace(/[^a-zA-Z0-9]/g, '').toLowerCase()`. */
  lemma {:induction false} SlugIsLowerAlnumOnly(s: string)
    ensures Slug(s) == Lower(AlnumOnly(s))
  {
    if |s| > 0 {
      var c, tail := s[0], s[1..];
      SlugIsLowerAlnumOnly(tail);
      assert s == [c] + tail;
      AlnumOnlyCons(c, tail);
      if IsAlnum(c) {
        LowerConcat([c], AlnumOnly(tail));
        assert Lower([c]) == [LowerChar(c)];
        assert Slug(s) == [LowerChar(c)] + Slug(tail);
      } else {
        assert Slug(s) == Slug(tail);
        assert AlnumOnly(s) == AlnumOnly(tail);
      }
    }
  }

  /** `SlugPrefix(s, n)` is the first `n` characters of `Slug(s)`. */
  lemma {:induction false} SlugPrefixTakesSlug(s: string, n: nat)
    ensures SlugPrefix(s, n) == Take(Slug(s), n)
  {
    if n > 0 && |s| > 0 {
      SlugPrefixTakesSlug(s[1..], if IsAlnum(s[0]) then n - 1 else n);
      var t := Slug(s[1..]);
      if IsAlnum(s[0]) {
        assert Slug(s) == [LowerChar(s[0])] + t;
        assert Take([LowerChar(s[0])] + t, n) == [LowerChar(s[0])] + Take(t, n - 1);
      } else {
        assert Slug(s) == t;
      }
    }
  }

  lemma TakeLower(s: string, n: nat)
    ensures Take(Lower(s), n) == Lower(Take(s, n))
  {
  }

  /** `SlugPrefix` is `s.replace(/[^a-zA-Z0-9]/g, '').substring(0, n).toLowerCase()`. */
  lemma SlugPrefixIsComposition(s: string, n: nat)
    ensures SlugPrefix(s, n) == Lower(Take(AlnumOnly(s), n))
    ensures SlugPrefix(s, n) == Take(Slug(s), n)
  {
    SlugPrefixTakesSlug(s, n);
    SlugIsLowerAlnumOnly(s);
    TakeLower(AlnumOnly(s), n);
  }

  /** The SQLite service's slug: `title.replace(/[^a-zA-Z0-9]/g, '').substring(0, 10).toLowerCase()`. */
  function SqliteSlug(title: string): (r: string)
  {
    SlugPrefix(title, 10)
  }

  /**
    The SQLite slug is the source's three-step composition; it is short, lower-case
    alphanumeric, and the first ten characters of the uncapped slug.
   */
  lemma SqliteSlugShape(title: string)
    ensures SqliteSlug(title) == Lower(Take(AlnumOnly(title), 10))
    ensures |SqliteSlug(title)| <= 10
    ensures forall c :: c in SqliteSlug(title) ==> IsLowerAlnum(c)
    ensures SqliteSlug(title) == Take(Slug(title), 10)
  {
    SlugPrefixIsComposition(title, 10);
  }

  // ---------------------------------------------------------------------------
  // The display title the JSON-file and Supabase services store.

  /** The ticket emoji, one code point. */
  const TicketEmoji: char := '\U{1F3AB}'
  /** The brand spelling the source corrects, and its correction; they differ only in the apostrophe. */
  const BrandStem: string := "MR NJP Event"
  const BrandTypo: string := BrandStem + ['\''] + ['s']
  const BrandFixed: string := BrandStem + ['s']

  /** Every occurrence of `c` removed (`s.replace(/c/g, '')`). */
  function RemoveChar(s: string, c: char): (r: string)
    ensures c !in r
    ensures forall x :: x in r ==> x in s
  {
    Seqs.Filter(s, x => x != c)
  }

  /** `s.replace(/pat/g, rep)` for a literal, non-empty pattern: left to right, non-overlapping. */
  function ReplaceAll(s: string, pat: string, rep: string): (r: string)
    requires |pat| > 0
    ensures forall x :: x in r ==> x in s || x in rep
    decreases |s|
  {
    if |s| == 0 then ""
    else if |pat| <= |s| && s[..|pat|] == pat then
      assert forall x :: x in s[|pat|..] ==> x in s;
      rep + ReplaceAll(s[|pat|..], pat, rep)
    else
      assert forall x :: x in s[1..] ==> x in s;
      [s[0]] + ReplaceAll(s[1..], pat, rep)
  }

  /** The suffix of `s` left after its leading white space (`trimStart`). */
  function DropLeadingSpaces(s: string): (r: string)
    ensures |r| <= |s| && r == s[|s| - |r|..]
    ensures |r| > 0 ==> !IsSpace(r[0])
    ensures |s| > 0 && IsSpace(s[0]) ==> |r| < |s|
    ensures |s| > 0 && !IsSpace(s[0]) ==> r == s
  {
    if |s| > 0 && IsSpace(s[0]) then DropLeadingSpaces(s[1..]) else s
  }

  /** The prefix of `s` left after its trailing white space (`trimEnd`). */
  function DropTrailingSpaces(s: string): (r: string)
    ensures |r| <= |s| && r == s[..|r|]
    ensures |r| > 0 ==> !IsSpace(r[|r| - 1])
  {
    if |s| > 0 && IsSpace(s[|s| - 1]) then DropTrailingSpaces(s[..|s| - 1]) else s
  }

  /** No two adjacent white-space characters. */
  predicate NoDoubleSpace(s: string) {
    forall i :: 0 <= i < |s| - 1 ==> !(IsSpace(s[i]) && IsSpace(s[i + 1]))
  }

  /** `s.replace(/\s+/g, ' ')`: every maximal run of white space becomes one space. */
  function CollapseSpaces(s: string): (r: string)
    ensures forall x :: x in r ==> x in s || x == ' '
    ensures NoDoubleSpace(r)
    ensures |s| > 0 && !IsSpace(s[0]) ==> |r| > 0 && r[0] == s[0]
    decreases |s|
  {
    if |s| == 0 then ""
    else if IsSpace(s[0]) then
      var rest := DropLeadingSpaces(s);
      var tail := CollapseSpaces(rest);
      SuffixChars(s, rest);
      ConsNoDoubleSpace(' ', tail);
      [' '] + tail
    else
      var tail := CollapseSpaces(s[1..]);
      SuffixChars(s, s[1..]);
      ConsNoDoubleSpace(s[0], tail);
      [s[0]] + tail
  }

  lemma SuffixChars(s: string, t: string)
    requires |t| <= |s| && t == s[|s| - |t|..]
    ensures forall x :: x in t ==> x in s
  {
    forall x | x in t
      ensures x in s
    {
      var i :| 0 <= i < |t| && t[i] == x;
      assert s[|s| - |t| + i] == x;
    }
  }

  lemma ConsNoDoubleSpace(c: char, t: string)
    requires NoDoubleSpace(t)
    requires !IsSpace(c) || |t| == 0 || !IsSpace(t[0])
    ensures NoDoubleSpace([c] + t)
  {
    var r := [c] + t;
    forall i | 1 <= i < |r| - 1
      ensures !(IsSpace(r[i]) && IsSpace(r[i + 1]))
    {
      assert r[i] == t[i - 1] && r[i + 1] == t[i];
    }
  }

  /** `s.trim()` */
  function Trim(s: string): (r: string)
  {
    DropTrailingSpaces(DropLeadingSpaces(s))
  }

  lemma NoDoubleSpaceSlice(s: string, a: nat, b: nat)
    requires NoDoubleSpace(s) && a <= b <= |s|
    ensures NoDoubleSpace(s[a..b])
  {
    var t := s[a..b];
    forall i | 0 <= i < |t| - 1
      ensures !(IsSpace(t[i]) && IsSpace(t[i + 1]))
    {
      assert t[i] == s[a + i] && t[i + 1] == s[a + i + 1];
    }
  }

  /** `s.trim()` is the slice of `s` between its leading and its trailing white space. */
  lemma TrimSlice(s: string) returns (k: nat)
    ensures k + |Trim(s)| <= |s| && Trim(s) == s[k..k + |Trim(s)|]
  {
    var d := DropLeadingSpaces(s);
    k := |s| - |d|;
  }

  /** Trimming keeps a contiguous slice: it adds no character and no doubled space, and strips both ends. */
  lemma TrimShape(s: string)
    ensures forall x :: x in Trim(s) ==> x in s
    ensures NoDoubleSpace(s) ==> NoDoubleSpace(Trim(s))
    ensures |Trim(s)| > 0 ==> !IsSpace(Trim(s)[0]) && !IsSpace(Trim(s)[|Trim(s)| - 1])
  {
    var k := TrimSlice(s);
    SliceChars(s, k, k + |Trim(s)|);
    if NoDoubleSpace(s) {
      NoDoubleSpaceSlice(s, k, k + |Trim(s)|);
    }
    TrimEnds(s);
  }

  lemma SliceChars(s: string, a: nat, b: nat)
    requires a <= b <= |s|
    ensures forall x :: x in s[a..b] ==> x in s
  {
    forall x | x in s[a..b]
      ensures x in s
    {
      var i :| 0 <= i < b - a && s[a..b][i] == x;
      assert s[a + i] == x;
    }
  }

  lemma TrimEnds(s: string)
    ensures |Trim(s)| > 0 ==> !IsSpace(Trim(s)[0]) && !IsSpace(Trim(s)[|Trim(s)| - 1])
  {
    var d := DropLeadingSpaces(s);
    if |Trim(s)| > 0 {
      assert Trim(s)[0] == d[0];
    }
  }

  /**
    The first three steps of `cleanTicketTitle`: drop the ticket emoji, fix the
    "MR NJP Event's" spelling, and collapse white-space runs to one space.
   */
  function Collapsed(title: string): (r: string)
    ensures TicketEmoji !in r
    ensures NoDoubleSpace(r)
  {
    var noEmoji := RemoveChar(title, TicketEmoji);
    EmojiStaysOut(noEmoji);
    CollapseSpaces(ReplaceAll(noEmoji, BrandTypo, BrandFixed))
  }

  /** `cleanTicketTitle`: the collapsed title, trimmed. */
  function CleanTicketTitle(title: string): (r: string)
    ensures TicketEmoji !in r
    ensures NoDoubleSpace(r)
    ensures |r| > 0 ==> !IsSpace(r[0]) && !IsSpace(r[|r| - 1])
  {
    TrimShape(Collapsed(title));
    Trim(Collapsed(title))
  }

  lemma EmojiNotInBrand()
    ensures TicketEmoji !in BrandFixed
  {
    assert forall c :: c in BrandFixed ==> c < '\U{0080}';
  }

  lemma EmojiStaysOut(s: string)
    requires TicketEmoji !in s
    ensures TicketEmoji !in CollapseSpaces(ReplaceAll(s, BrandTypo, BrandFixed))
  {
    var fixedBrand := ReplaceAll(s, BrandTypo, BrandFixed);
    EmojiNotInBrand();
    assert TicketEmoji !in fixedBrand;
  }

  // ---------------------------------------------------------------------------
  // Cleaning keeps every alphanumeric character, so the two slug styles agree.

  lemma {:induction false} AlnumOnlyConcat(a: string, b: string)
    ensures AlnumOnly(a + b) == AlnumOnly(a) + AlnumOnly(b)
  {
    Seqs.FilterConcat(a, b, IsAlnum);
  }

  lemma SpaceIsNotAlnum(c: char)
    requires IsSpace(c)
    ensures !IsAlnum(c)
  {
  }

  lemma {:induction false} AlnumOnlyRemoveChar(s: string, c: char)
    requires !IsAlnum(c)
    ensures AlnumOnly(RemoveChar(s, c)) == AlnumOnly(s)
  {
    if |s| > 0 {
      var rest := s[1..];
      assert s == [s[0]] + rest;
      AlnumOnlyRemoveChar(rest, c);
      var kept := if s[0] != c then [s[0]] else [];
      assert RemoveChar(s, c) == kept + RemoveChar(rest, c);
      AlnumOnlyConcat(kept, RemoveChar(rest, c));
      AlnumOnlyCons(s[0], rest);
      if s[0] != c {
        AlnumOnlyCons(s[0], []);
      }
    }
  }

  /** Dropping a non-alphanumeric character is invisible once only alphanumerics are kept. */
  lemma DropInvisible(stem: string, c: char, tail: string)
    requires !IsAlnum(c)
    ensures AlnumOnly(stem + [c] + tail) == AlnumOnly(stem + tail)
  {
    calc {
      AlnumOnly(stem + [c] + tail);
      { AlnumOnlyConcat(stem + [c], tail); }
      AlnumOnly(stem + [c]) + AlnumOnly(tail);
      { AlnumOnlyConcat(stem, [c]); NonAlnumDropped(c); }
      AlnumOnly(stem) + AlnumOnly(tail);
      { AlnumOnlyConcat(stem, tail); }
      AlnumOnly(stem + tail);
    }
  }

  lemma NonAlnumDropped(c: char)
    requires !IsAlnum(c)
    ensures AlnumOnly([c]) == []
  {
    assert [c][1..] == [];
  }

  lemma SpaceInvisible(t: string)
    ensures AlnumOnly(" " + t) == AlnumOnly(t)
  {
    AlnumOnlyCons(' ', t);
  }

  /** Replacing a pattern by a text with the same alphanumerics keeps the alphanumerics. */
  lemma {:induction false} AlnumOnlyReplaceAll(s: string, pat: string, rep: string)
    requires |pat| > 0 && AlnumOnly(pat) == AlnumOnly(rep)
    ensures AlnumOnly(ReplaceAll(s, pat, rep)) == AlnumOnly(s)
    decreases |s|
  {
    if |s| == 0 {
    } else if |pat| <= |s| && s[..|pat|] == pat {
      var rest := s[|pat|..];
      AlnumOnlyReplaceAll(rest, pat, rep);
      assert ReplaceAll(s, pat, rep) == rep + ReplaceAll(rest, pat, rep);
      AlnumOnlyConcat(rep, ReplaceAll(rest, pat, rep));
      assert s == pat + rest;
      AlnumOnlyConcat(pat, rest);
    } else {
      var rest := s[1..];
      AlnumOnlyReplaceAll(rest, pat, rep);
      assert ReplaceAll(s, pat, rep) == [s[0]] + ReplaceAll(rest, pat, rep);
      AlnumOnlyCons(s[0], ReplaceAll(rest, pat, rep));
      assert s == [s[0]] + rest;
      AlnumOnlyCons(s[0], rest);
    }
  }

  lemma {:induction false} AlnumOnlyDropLeading(s: string)
    ensures AlnumOnly(DropLeadingSpaces(s)) == AlnumOnly(s)
  {
    if |s| > 0 && IsSpace(s[0]) {
      AlnumOnlyDropLeading(s[1..]);
      SpaceIsNotAlnum(s[0]);
      AlnumOnlyDropHead(s);
    }
  }

  lemma {:induction false} AlnumOnlyDropTrailing(s: string)
    ensures AlnumOnly(DropTrailingSpaces(s)) == AlnumOnly(s)
  {
    if |s| > 0 && IsSpace(s[|s| - 1]) {
      var init := s[..|s| - 1];
      AlnumOnlyDropTrailing(init);
      assert DropTrailingSpaces(s) == DropTrailingSpaces(init);
      assert s == init + [s[|s| - 1]];
      AlnumOnlyConcat(init, [s[|s| - 1]]);
      SpaceIsNotAlnum(s[|s| - 1]);
      AlnumOnlyCons(s[|s| - 1], []);
      assert [s[|s| - 1]] + [] == [s[|s| - 1]];
    }
  }

  /** A leading non-alphanumeric character is invisible to `AlnumOnly`. */
  lemma AlnumOnlyDropHead(s: string)
    requires |s| > 0 && !IsAlnum(s[0])
    ensures AlnumOnly(s) == AlnumOnly(s[1..])
  {
    Seqs.SplitHead(s);
    AlnumOnlyCons(s[0], s[1..]);
  }

  lemma {:induction false} AlnumOnlyCollapse(s: string)
    ensures AlnumOnly(CollapseSpaces(s)) == AlnumOnly(s)
    decreases |s|
  {
    if |s| == 0 {
    } else if IsSpace(s[0]) {
      AlnumOnlyCollapse(DropLeadingSpaces(s));
      CollapseSpaceRun(s);
    } else {
      AlnumOnlyCollapse(s[1..]);
      CollapseKeepsHead(s);
    }
  }

  lemma CollapseSpaceRun(s: string)
    requires |s| > 0 && IsSpace(s[0])
    requires AlnumOnly(CollapseSpaces(DropLeadingSpaces(s))) == AlnumOnly(DropLeadingSpaces(s))
    ensures AlnumOnly(CollapseSpaces(s)) == AlnumOnly(s)
  {
    var rest := DropLeadingSpaces(s);
    assert CollapseSpaces(s) == " " + CollapseSpaces(rest);
    AlnumOnlyDropLeading(s);
    SpaceInvisible(CollapseSpaces(rest));
  }

  lemma CollapseKeepsHead(s: string)
    requires |s| > 0 && !IsSpace(s[0])
    requires AlnumOnly(CollapseSpaces(s[1..])) == AlnumOnly(s[1..])
    ensures AlnumOnly(CollapseSpaces(s)) == AlnumOnly(s)
  {
    var rest := s[1..];
    assert CollapseSpaces(s) == [s[0]] + CollapseSpaces(rest);
    AlnumOnlyCons(s[0], CollapseSpaces(rest));
    Seqs.SplitHead(s);
    AlnumOnlyCons(s[0], rest);
  }

  /** Cleaning a title removes and rewrites only non-alphanumeric characters. */
  lemma CleanKeepsAlnum(title: string)
    ensures AlnumOnly(CleanTicketTitle(title)) == AlnumOnly(title)
  {
    var noEmoji := RemoveChar(title, TicketEmoji);
    var fixedBrand := ReplaceAll(noEmoji, BrandTypo, BrandFixed);
    var collapsed := CollapseSpaces(fixedBrand);
    AlnumOnlyRemoveChar(title, TicketEmoji);
    DropInvisible(BrandStem, '\'', ['s']);
    AlnumOnlyReplaceAll(noEmoji, BrandTypo, BrandFixed);
    AlnumOnlyCollapse(fixedBrand);
    AlnumOnlyDropLeading(collapsed);
    AlnumOnlyDropTrailing(DropLeadingSpaces(collapsed));
  }

  /** `cleanTicketTitle(title).toLowerCase().replace(/[^a-z0-9]/g, '')`: no length cap. */
  function CleanSlug(title: string): (r: string)
    ensures forall c :: c in r ==> IsLowerAlnum(c)
  {
    LowerAlnumOnly(Lower(CleanTicketTitle(title)))
  }

  /**
    The JSON-file and Supabase slug is the slug of the raw title (cleaning touches
    no alphanumeric), and the SQLite slug is exactly its first ten characters.
   */
  lemma SlugsAgree(title: string)
    ensures CleanSlug(title) == Slug(title)
    ensures SqliteSlug(title) == Take(CleanSlug(title), 10)
  {
    LowerAlnumOnlyOfLower(CleanTicketTitle(title));
    CleanKeepsAlnum(title);
    SlugIsLowerAlnumOnly(title);
    SqliteSlugShape(title);
  }

  // ---------------------------------------------------------------------------
  // The identifier and the URL encoded in the QR code.

  /** `${orderNumber}_${slug}_${index}_${Date.now().toString(36)}_${random}` */
  function TicketId(orderNumber: int, slug: string, index: nat, clock: nat, random: string): (r: string)
    ensures var n := IntToDecimal(orderNumber);
      |n| < |r| && r[..|n|] == n && r[|n|] == '_'
  {
    Join([IntToDecimal(orderNumber), slug, NatToDecimal(index), NatToBase36(clock), random], '_')
  }

  /**
    With a `_`-free slug and random suffix, the identifier splits on `_` into exactly
    its five components; the first reads back as the order number, the third as the index.
   */
  lemma TicketIdFields(orderNumber: int, slug: string, index: nat, clock: nat, random: string)
    requires '_' !in slug && '_' !in random
    ensures Split(TicketId(orderNumber, slug, index, clock, random), '_')
         == [IntToDecimal(orderNumber), slug, NatToDecimal(index), NatToBase36(clock), random]
    ensures ParseInt(IntToDecimal(orderNumber)) == Some(orderNumber)
    ensures ParseNat(NatToDecimal(index)) == index
  {
    var fields := [IntToDecimal(orderNumber), slug, NatToDecimal(index), NatToBase36(clock), random];
    assert forall i :: 0 <= i < |fields| ==> '_' !in fields[i];
    SplitJoinAll(fields, '_');
    ParseIntToDecimal(orderNumber);
    ParseNatToDecimal(index);
  }

  /** The path every scanner looks for. */
  const ValidatePath: string := "/api/ticket/validate/"

  /** `${baseUrl}/api/ticket/validate/${ticketId}` */
  function ValidationUrl(baseUrl: string, ticketId: string): (r: string)
    ensures |r| == |baseUrl| + |ValidatePath| + |ticketId|
    ensures r[..|baseUrl|] == baseUrl && r[|baseUrl|..|baseUrl| + |ValidatePath|] == ValidatePath
    ensures r[|baseUrl| + |ValidatePath|..] == ticketId
  {
    baseUrl + ValidatePath + ticketId
  }

  // ---------------------------------------------------------------------------
  // The Supabase service's record id.

  /** One random draw `Math.random() * 16 | 0` per template position; only placeholders use theirs. */
  type Nibbles = s: seq<nat> | |s| == 36 && forall i :: 0 <= i < |s| ==> s[i] < 16
    witness seq(36, i => 0)

  const UuidTemplate: string := "xxxxxxxx-xxxx-4xxx-yxxx-xxxxxxxxxxxx"

  predicate IsHexDigit(c: char) {
    '0' <= c <= '9' || 'a' <= c <= 'f'
  }

  /** `v.toString(16)` for `v < 16` */
  function HexDigit(v: nat): (c: char)
    requires v < 16
    ensures IsHexDigit(c)
  {
    if v < 10 then (48 + v) as char else (97 + v - 10) as char
  }

  /** The replacement for one template character, given its random draw `r`. */
  function FillPlaceholder(c: char, r: nat): char
    requires r < 16
  {
    if c == 'x' then HexDigit(r)
    else if c == 'y' then HexDigit((((r as bv8) & 0x3) | 0x8) as nat)
    else c
  }

  /** `generateId` of lib/ticket-service-supabase.ts: a version-4-shaped UUID. */
  function Uuid(nibbles: Nibbles): (r: string)
    ensures |r| == 36
  {
    seq(36, i requires 0 <= i < 36 => FillPlaceholder(UuidTemplate[i], nibbles[i]))
  }

  /** The UUID carries dashes at 8/13/18/23, the version digit 4, a variant digit 8-b, and hex elsewhere. */
  lemma UuidShape(nibbles: Nibbles)
    ensures var u := Uuid(nibbles);
      && u[8] == '-' && u[13] == '-' && u[18] == '-' && u[23] == '-'
      && u[14] == '4'
      && u[19] in "89ab"
      && forall i :: 0 <= i < 36 && i !in {8, 13, 14, 18, 19, 23} ==> IsHexDigit(u[i])
  {
    var u := Uuid(nibbles);
    var y := (((nibbles[19] as bv8) & 0x3) | 0x8) as nat;
    assert 8 <= y <= 11;
    assert u[19] == HexDigit(y);
    forall i | 0 <= i < 36 && i !in {8, 13, 14, 18, 19, 23}
      ensures IsHexDigit(u[i])
    {
      assert UuidTemplate[i] == 'x';
    }
  }
}
