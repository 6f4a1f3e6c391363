/**
 * The redaction filter (lua/redaction.lua): the redaction tags are brought to lower case, and then the
 * text between each opening tag and the next closing tag is replaced by its salted hash. The results hold
 * for any hash that yields 40 lower-case hexadecimal digits, and so for SHA-1.
 */
module Redaction {
  import opened Bits
  import opened Fips180
  import opened Messages
  import opened Sha1
  import opened Wrappers

  const OPEN := "<ud>"
  const CLOSE := "</ud>"

  // ---- Occurrences of a tag ----

  predicate At(s: string, i: nat, tag: string)
  {
    i + |tag| <= |s| && s[i..i + |tag|] == tag
  }

  ghost predicate Without(s: string, tag: string)
  {
    forall i: nat :: !At(s, i, tag)
  }

  lemma AtDrop(s: string, n: nat, i: nat, tag: string)
    requires n <= |s|
    ensures At(s[n..], i, tag) <==> At(s, n + i, tag)
  {
    if n + i + |tag| <= |s| {
      assert s[n..][i..i + |tag|] == s[n + i..n + i + |tag|];
    }
  }

  /** A pattern whose last item is lazy finds the first occurrence of what follows. */
  function Find(s: string, tag: string): (r: Option<nat>)
    ensures r.Some? ==> At(s, r.value, tag) && forall i: nat :: i < r.value ==> !At(s, i, tag)
    ensures r.None? ==> Without(s, tag)
  {
    if At(s, 0, tag) then Some(0)
    else if s == "" then None
    else
      assert forall i: nat :: i > 0 ==> (At(s, i, tag) <==> At(s[1..], i - 1, tag)) by {
        forall i: nat | i > 0 ensures At(s, i, tag) <==> At(s[1..], i - 1, tag) { AtDrop(s, 1, i - 1, tag); }
      }
      match Find(s[1..], tag)
      case Some(i) => Some(i + 1)
      case None => None
  }

  /** A tag starts with the only '<' in it. */
  predicate IsTag(tag: string)
  {
    |tag| > 0 && tag[0] == '<' && forall k :: 0 < k < |tag| ==> tag[k] != '<'
  }

  lemma AtTake(a: string, b: string, i: nat, tag: string)
    requires i + |tag| <= |a|
    ensures At(a + b, i, tag) <==> At(a, i, tag)
  {
    assert (a + b)[i..i + |tag|] == a[i..i + |tag|];
  }

  lemma TagStart(s: string, i: nat, k: nat, tag: string)
    requires IsTag(tag) && k < |s| && s[k] == '<'
    ensures At(s, i, tag) && i <= k < i + |tag| ==> k == i
  {
    if At(s, i, tag) && i <= k < i + |tag| {
      assert s[i..i + |tag|][k - i] == s[k];
    }
  }

  /** No occurrence straddles the place where a tag begins. */
  lemma FirstTag(a: string, b: string, tag: string)
    requires IsTag(tag) && Without(a, tag) && |b| > 0 && b[0] == '<'
    ensures forall i: nat :: i < |a| ==> !At(a + b, i, tag)
  {
    forall i: nat | i < |a|
      ensures !At(a + b, i, tag)
    {
      if i + |tag| <= |a| {
        AtTake(a, b, i, tag);
      } else {
        TagStart(a + b, i, |a|, tag);
      }
    }
  }

  // ---- The structure of a text ----

  /** Regions, each after a gap, and what follows the last. */
  datatype Parsed = Tail(text: string) | Region(gap: string, body: string, rest: Parsed)

  function Text(p: Parsed): string
  {
    match p
    case Tail(text) => text
    case Region(gap, body, rest) => gap + (OPEN + (body + (CLOSE + Text(rest))))
  }

  /** No opening tag is followed by a closing one. */
  ghost predicate NoRegion(s: string)
  {
    forall i: nat, j: nat :: At(s, i, OPEN) && i + |OPEN| <= j ==> !At(s, j, CLOSE)
  }

  ghost predicate Valid(p: Parsed)
  {
    match p
    case Tail(text) => NoRegion(text)
    case Region(gap, body, rest) => Without(gap, OPEN) && Without(body, CLOSE) && Valid(rest)
  }

  function MapBodies(p: Parsed, f: string -> string): Parsed
  {
    match p
    case Tail(_) => p
    case Region(gap, body, rest) => Region(gap, f(body), MapBodies(rest, f))
  }

  /** Where the parts of the first region are. */
  lemma RegionParts(p: Parsed)
    requires p.Region?
    ensures At(Text(p), |p.gap|, OPEN) && Text(p)[..|p.gap|] == p.gap
    ensures |p.gap| + 4 + |p.body| + 5 <= |Text(p)| && At(Text(p)[|p.gap| + 4..], |p.body|, CLOSE)
    ensures Text(p)[|p.gap| + 4..][..|p.body|] == p.body
    ensures Text(p)[|p.gap| + 4..][|p.body| + 5..] == Text(p.rest)
  {
    var after := p.body + (CLOSE + Text(p.rest));
    assert Text(p) == p.gap + (OPEN + after);
    assert Text(p)[|p.gap| + 4..] == after;
  }

  /** They are at the first tags. */
  lemma RegionFirst(p: Parsed)
    requires p.Region? && Valid(p)
    ensures forall i: nat :: i < |p.gap| ==> !At(Text(p), i, OPEN)
    ensures |p.gap| + 4 <= |Text(p)|
    ensures var after := Text(p)[|p.gap| + 4..];
            forall i: nat :: i < |p.body| ==> !At(after, i, CLOSE)
  {
    var close := CLOSE + Text(p.rest);
    var after := p.body + close;
    var open := OPEN + after;
    assert Text(p) == p.gap + open;
    assert Text(p)[|p.gap| + 4..] == after;
    FirstTag(p.gap, open, OPEN);
    FirstTag(p.body, close, CLOSE);
  }

  lemma RegionCloses(p: Parsed)
    requires p.Region?
    ensures !NoRegion(Text(p))
  {
    RegionParts(p);
    AtDrop(Text(p), |p.gap| + 4, |p.body|, CLOSE);
  }

  lemma SameRegion(p: Parsed, q: Parsed)
    requires p.Region? && q.Region? && Valid(p) && Valid(q) && Text(p) == Text(q)
    ensures p.gap == q.gap && p.body == q.body && Text(p.rest) == Text(q.rest)
  {
    RegionParts(p);
    RegionParts(q);
    RegionFirst(p);
    RegionFirst(q);
    hide Text, At, Without;
    assert |p.gap| == |q.gap|;
    assert |p.body| == |q.body|;
  }

  /** A text has only one structure. */
  lemma {:induction false} Unique(p: Parsed, q: Parsed)
    requires Valid(p) && Valid(q) && Text(p) == Text(q)
    ensures p == q
  {
    match (p, q)
    case (Tail(_), Tail(_)) =>
    case (Region(_, _, _), Tail(_)) => RegionCloses(p);
    case (Tail(_), Region(_, _, _)) => RegionCloses(q);
    case (Region(_, _, r), Region(_, _, r')) =>
      SameRegion(p, q);
      Unique(r, r');
  }

  // ---- string.gsub(lowered, "<ud>(.-)</ud>", cb_hash_string) ----

  function Marked(hash: string): string { OPEN + (hash + CLOSE) }

  /** From each position: a region if one starts there, or else one character. */
  function Rewrite(s: string, hash: string -> string): string
    decreases |s|
  {
    if s == "" then ""
    else if At(s, 0, OPEN) && Find(s[4..], CLOSE).Some? then
      var n := Find(s[4..], CLOSE).value;
      Marked(hash(s[4..][..n])) + Rewrite(s[4..][n + 5..], hash)
    else [s[0]] + Rewrite(s[1..], hash)
  }

  /** The structure of a text, found the same way. */
  function Scan(s: string): Parsed
    decreases |s|
  {
    if s == "" then Tail("")
    else if At(s, 0, OPEN) && Find(s[4..], CLOSE).Some? then
      var n := Find(s[4..], CLOSE).value;
      Region("", s[4..][..n], Scan(s[4..][n + 5..]))
    else Prepended(s[0], Scan(s[1..]))
  }

  function Prepended(c: char, p: Parsed): Parsed
  {
    match p
    case Tail(text) => Tail([c] + text)
    case Region(gap, body, rest) => Region([c] + gap, body, rest)
  }

  lemma BodyWithout(s: string, tag: string, n: nat)
    requires n <= |s| && forall i: nat :: i < n ==> !At(s, i, tag)
    requires |tag| > 0
    ensures Without(s[..n], tag)
  {
    forall i: nat
      ensures !At(s[..n], i, tag)
    {
      if i + |tag| <= n {
        AtTake(s[..n], s[n..], i, tag);
        assert s[..n] + s[n..] == s;
      }
    }
  }

  /** Where no region starts, one more character belongs to the tail ... */
  lemma TailGrows(s: string)
    requires s != "" && NoRegion(s[1..]) && (At(s, 0, OPEN) ==> Without(s[4..], CLOSE))
    ensures NoRegion(s)
  {
    forall i: nat, j: nat | At(s, i, OPEN) && i + |OPEN| <= j
      ensures !At(s, j, CLOSE)
    {
      if i == 0 {
        AtDrop(s, 4, j - 4, CLOSE);
      } else {
        AtDrop(s, 1, i - 1, OPEN);
        AtDrop(s, 1, j - 1, CLOSE);
      }
    }
  }

  /** ... or to the gap. */
  lemma GapGrows(s: string, p: Parsed)
    requires s != "" && p.Region? && Valid(p) && Text(p) == s[1..] && (At(s, 0, OPEN) ==> Without(s[4..], CLOSE))
    ensures Without([s[0]] + p.gap, OPEN)
  {
    RegionFirst(p);
    RegionParts(p);
    var close := |p.gap| + 4 + |p.body|;
    AtDrop(s[1..], |p.gap| + 4, |p.body|, CLOSE);
    AtDrop(s, 1, close, CLOSE);
    AtDrop(s, 4, close + 1 - 4, CLOSE);
    assert !At(s, 0, OPEN);
    var gap := [s[0]] + p.gap;
    assert gap + s[1 + |p.gap|..] == s;
    hide Valid, Text;
    forall i: nat
      ensures !At(gap, i, OPEN)
    {
      if i + |OPEN| <= |gap| {
        AtTake(gap, s[1 + |p.gap|..], i, OPEN);
        if i > 0 {
          AtDrop(s, 1, i - 1, OPEN);
        }
      }
    }
  }

  /** A region at the start of a text. */
  lemma StartsRegion(s: string, n: nat)
    requires At(s, 0, OPEN) && At(s[4..], n, CLOSE)
    ensures s == "" + (OPEN + (s[4..][..n] + (CLOSE + s[4..][n + 5..])))
  {
    var after := s[4..];
    assert s == OPEN + after;
    assert after[n..] == CLOSE + after[n + 5..];
    assert after == after[..n] + after[n..];
  }

  lemma ScanRegion(s: string, n: nat)
    requires At(s, 0, OPEN) && Find(s[4..], CLOSE) == Some(n)
    requires Valid(Scan(s[4..][n + 5..])) && Text(Scan(s[4..][n + 5..])) == s[4..][n + 5..]
    ensures Valid(Scan(s)) && Text(Scan(s)) == s
  {
    var p := Region("", s[4..][..n], Scan(s[4..][n + 5..]));
    assert Scan(s) == p;
    hide Scan, Find;
    BodyWithout(s[4..], CLOSE, n);
    StartsRegion(s, n);
  }

  lemma PrependedCorrect(s: string, p: Parsed)
    requires s != "" && !(At(s, 0, OPEN) && Find(s[4..], CLOSE).Some?)
    requires Valid(p) && Text(p) == s[1..]
    ensures Valid(Prepended(s[0], p)) && Text(Prepended(s[0], p)) == s
  {
    hide At, NoRegion, Without;
    assert s == [s[0]] + s[1..];
    if p.Tail? {
      TailGrows(s);
    } else {
      GapGrows(s, p);
      var open := OPEN + (p.body + (CLOSE + Text(p.rest)));
      assert [s[0]] + (p.gap + open) == ([s[0]] + p.gap) + open;
    }
  }

  /** Every text has a structure. */
  lemma {:induction false} ScanCorrect(s: string)
    ensures Valid(Scan(s)) && Text(Scan(s)) == s
    decreases |s|
  {
    if s == "" {
    } else if At(s, 0, OPEN) && Find(s[4..], CLOSE).Some? {
      hide Scan, Valid, Text;
      var n := Find(s[4..], CLOSE).value;
      ScanCorrect(s[4..][n + 5..]);
      ScanRegion(s, n);
    } else {
      assert Scan(s) == Prepended(s[0], Scan(s[1..]));
      hide Scan, Valid, Text;
      ScanCorrect(s[1..]);
      PrependedCorrect(s, Scan(s[1..]));
    }
  }

  lemma PrependedText(c: char, p: Parsed, hash: string -> string)
    ensures Text(MapBodies(Prepended(c, p), hash)) == [c] + Text(MapBodies(p, hash))
  {
    if p.Region? {
      var open := OPEN + (hash(p.body) + (CLOSE + Text(MapBodies(p.rest, hash))));
      assert [c] + (p.gap + open) == ([c] + p.gap) + open;
    }
  }

  lemma RegionText(body: string, rest: Parsed, hash: string -> string)
    ensures Text(MapBodies(Region("", body, rest), hash)) == Marked(hash(body)) + Text(MapBodies(rest, hash))
  {
    var after := Text(MapBodies(rest, hash));
    assert "" + (OPEN + (hash(body) + (CLOSE + after))) == (OPEN + (hash(body) + CLOSE)) + after;
  }

  lemma {:induction false} RewriteScan(s: string, hash: string -> string)
    ensures Rewrite(s, hash) == Text(MapBodies(Scan(s), hash))
    decreases |s|
  {
    if s == "" {
    } else if At(s, 0, OPEN) && Find(s[4..], CLOSE).Some? {
      hide At, Find, Text, MapBodies, Marked;
      var n := Find(s[4..], CLOSE).value;
      RewriteScan(s[4..][n + 5..], hash);
      RegionText(s[4..][..n], Scan(s[4..][n + 5..]), hash);
    } else {
      hide At, Find, Text, MapBodies, Marked, Prepended;
      RewriteScan(s[1..], hash);
      PrependedText(s[0], Scan(s[1..]), hash);
    }
  }

  /**
   * The rewrite keeps every gap and the tail, and replaces every body by its hash: for every structure of
   * the text, hence for its only one.
   */
  lemma RewriteMeaning(p: Parsed, hash: string -> string)
    requires Valid(p)
    ensures Rewrite(Text(p), hash) == Text(MapBodies(p, hash))
  {
    ScanCorrect(Text(p));
    Unique(p, Scan(Text(p)));
    RewriteScan(Text(p), hash);
  }

  // ---- Scanning the output again ----

  predicate IsDigit(c: char) { '0' <= c <= '9' || 'a' <= c <= 'f' }

  /** 40 lower-case hexadecimal digits. */
  predicate IsDigest(s: string)
  {
    |s| == 40 && forall i :: 0 <= i < |s| ==> IsDigit(s[i])
  }

  /** The hash of every body has that form. */
  predicate DigestBodies(p: Parsed, hash: string -> string)
  {
    match p
    case Tail(_) => true
    case Region(_, body, rest) => IsDigest(hash(body)) && DigestBodies(rest, hash)
  }

  /** cb_hash_string: the hash of a body is that of the salt followed by the body. */
  function Salted(sha1: string -> string, salt: string): string -> string
  {
    body => sha1(salt + body)
  }

  /** What SHA-1 gives is of that form. */
  lemma Sha1Digest(h: Hash)
    ensures IsDigest(DigestHex(h))
  {
    var (a, b, c, d, e) := (HexWord(h.a), HexWord(h.b), HexWord(h.c), HexWord(h.d), HexWord(h.e));
    HexDigits(8, Bits.Value(h.a));
    HexDigits(8, Bits.Value(h.b));
    HexDigits(8, Bits.Value(h.c));
    HexDigits(8, Bits.Value(h.d));
    HexDigits(8, Bits.Value(h.e));
    assert DigestHex(h) == a + b + c + d + e;
  }

  lemma {:induction false} HexDigits(n: nat, x: nat)
    ensures forall i :: 0 <= i < n ==> IsDigit(Hex(n, x)[i])
  {
    if n > 0 {
      HexDigits(n - 1, x / 16);
    }
  }

  /** A Lua string is a string of bytes. */
  function Bytes(s: string): seq<Byte>
  {
    seq(|s|, i requires 0 <= i < |s| => s[i] as int % 256)
  }

  /** sha1.sha1, which gives nothing from 2^29 bytes on. */
  function Sha1Text(s: string): string
  {
    if |s| < 0x2000_0000 then
      Pow2Values();
      DigestHex(Fips180.Sha1(MessageBits(Bytes(s))))
    else ""
  }

  /** Salt and body together are short enough for sha1.sha1. */
  predicate Hashable(p: Parsed, salt: string)
  {
    match p
    case Tail(_) => true
    case Region(_, body, rest) => |salt| + |body| < 0x2000_0000 && Hashable(rest, salt)
  }

  lemma Sha1TextDigest(s: string)
    requires |s| < 0x2000_0000
    ensures IsDigest(Sha1Text(s))
  {
    hide DigestHex, IsDigest, MessageBits, Fips180.Sha1;
    Pow2Values();
    Sha1Digest(Fips180.Sha1(MessageBits(Bytes(s))));
  }

  lemma {:induction false} HashableBodies(p: Parsed, salt: string)
    requires Hashable(p, salt)
    ensures DigestBodies(p, Salted(Sha1Text, salt))
  {
    hide Sha1Text, IsDigest;
    if p.Region? {
      Sha1TextDigest(salt + p.body);
      HashableBodies(p.rest, salt);
    }
  }

  lemma DigestWithoutTag(s: string)
    requires IsDigest(s)
    ensures Without(s, CLOSE)
  {
    forall i: nat
      ensures !At(s, i, CLOSE)
    {
      if i + 5 <= |s| {
        assert s[i..i + 5][0] == s[i];
      }
    }
  }

  lemma {:induction false} MappedValid(p: Parsed, hash: string -> string)
    requires Valid(p) && DigestBodies(p, hash)
    ensures Valid(MapBodies(p, hash))
  {
    if p.Region? {
      DigestWithoutTag(hash(p.body));
      MappedValid(p.rest, hash);
    }
  }

  // ---- string.gsub(original, "</*UD>", string.lower) ----

  /** A match of the pattern at position i, with n slashes. */
  predicate TagAt(s: string, i: nat, n: nat)
  {
    i + n + 4 <= |s| && s[i] == '<' && (forall k :: i < k <= i + n ==> s[k] == '/')
    && s[i + n + 1] == 'U' && s[i + n + 2] == 'D' && s[i + n + 3] == '>'
  }

  function Slashes(s: string, i: nat): (n: nat)
    requires i <= |s|
    ensures i + n <= |s| && (forall k :: i <= k < i + n ==> s[k] == '/')
    ensures i + n < |s| ==> s[i + n] != '/'
    decreases |s| - i
  {
    if i < |s| && s[i] == '/' then 1 + Slashes(s, i + 1) else 0
  }

  /** The repetition first takes all the slashes it can, and then gives them back one by one. */
  function Expand(s: string, n: nat): (r: Option<nat>)
    ensures r.Some? ==> r.value <= n && TagAt(s, 0, r.value)
    ensures r.None? ==> forall m: nat :: m <= n ==> !TagAt(s, 0, m)
  {
    if TagAt(s, 0, n) then Some(n) else if n == 0 then None else Expand(s, n - 1)
  }

  /** The number of slashes in the match at the start, if there is one. */
  function TagLength(s: string): (r: Option<nat>)
    ensures r.Some? ==> TagAt(s, 0, r.value)
    ensures r.None? ==> forall m: nat :: !TagAt(s, 0, m)
  {
    if s == "" || s[0] != '<' then None
    else
      var n := Slashes(s, 1);
      assert 1 + n < |s| ==> s[1 + n] != '/';
      Expand(s, n)
  }

  function LowerChar(c: char): char
  {
    if 'A' <= c <= 'Z' then c - 'A' + 'a' else c
  }

  /** string.lower */
  function LowerAll(s: string): (r: string)
    ensures |r| == |s| && forall i :: 0 <= i < |s| ==> r[i] == LowerChar(s[i])
  {
    seq(|s|, i requires 0 <= i < |s| => LowerChar(s[i]))
  }

  function Lower(s: string): string
    decreases |s|
  {
    if s == "" then ""
    else match TagLength(s)
         case Some(n) => LowerAll(s[..n + 4]) + Lower(s[n + 4..])
         case None => [s[0]] + Lower(s[1..])
  }

  /** Position k is part of a match. */
  ghost predicate InTag(s: string, k: nat)
  {
    exists i: nat, n: nat :: TagAt(s, i, n) && i <= k < i + n + 4
  }

  lemma {:induction false} LowerLength(s: string)
    ensures |Lower(s)| == |s|
    decreases |s|
  {
    if s != "" {
      match TagLength(s)
      case Some(n) => LowerLength(s[n + 4..]);
      case None => LowerLength(s[1..]);
    }
  }

  lemma TagDrop(s: string, m: nat, i: nat, n: nat)
    requires m <= |s|
    ensures TagAt(s[m..], i, n) <==> TagAt(s, m + i, n)
  {
    if TagAt(s, m + i, n) {
      forall k | i < k <= i + n ensures s[m..][k] == '/' { assert s[m + k] == '/'; }
    }
    if TagAt(s[m..], i, n) {
      forall k | m + i < k <= m + i + n ensures s[k] == '/' { assert s[m..][k - m] == '/'; }
    }
  }

  /** Two matches are the same or do not overlap. */
  lemma TagsApart(s: string, i: nat, n: nat, j: nat, m: nat)
    requires TagAt(s, i, n) && TagAt(s, j, m) && i <= j
    ensures (i == j && n == m) || i + n + 4 <= j
  {
  }

  /** What one step of the substitution reads, and what it writes. */
  function FrontLength(s: string): (n: nat)
    ensures n >= 1
  {
    match TagLength(s)
    case Some(n) => n + 4
    case None => 1
  }

  function LowerFront(s: string): string
    requires FrontLength(s) <= |s|
  {
    if TagLength(s).Some? then LowerAll(s[..FrontLength(s)]) else s[..1]
  }

  lemma LowerStep(s: string)
    requires s != ""
    ensures FrontLength(s) <= |s| && Lower(s) == LowerFront(s) + Lower(s[FrontLength(s)..])
    ensures |LowerFront(s)| == FrontLength(s)
  {
    assert s[..1] == [s[0]];
  }

  lemma InTagDrop(s: string, m: nat, k: nat)
    requires m <= k < |s|
    requires forall i: nat, n: nat :: TagAt(s, i, n) && i < m ==> i + n + 4 <= m
    ensures InTag(s, k) <==> InTag(s[m..], k - m)
  {
    if InTag(s, k) {
      var i: nat, n: nat :| TagAt(s, i, n) && i <= k < i + n + 4;
      TagDrop(s, m, i - m, n);
    }
    if InTag(s[m..], k - m) {
      var i: nat, n: nat :| TagAt(s[m..], i, n) && i <= k - m < i + n + 4;
      TagDrop(s, m, i, n);
    }
  }

  lemma InTagRest(s: string, k: nat)
    requires k < |s| && FrontLength(s) <= k
    ensures InTag(s, k) <==> InTag(s[FrontLength(s)..], k - FrontLength(s))
  {
    var m := FrontLength(s);
    forall i: nat, n: nat | TagAt(s, i, n) && i < m
      ensures i + n + 4 <= m
    {
      if TagLength(s).Some? {
        TagsApart(s, 0, m - 4, i, n);
      }
    }
    InTagDrop(s, m, k);
  }

  lemma InTagFront(s: string, k: nat)
    requires k < |s| && k < FrontLength(s) <= |s|
    ensures LowerFront(s)[k] == if InTag(s, k) then LowerChar(s[k]) else s[k]
  {
    if TagLength(s).Some? {
      assert TagAt(s, 0, FrontLength(s) - 4);
    }
  }

  /** The substitution changes exactly the characters of the matches, to lower case. */
  lemma {:induction false} LowerAt(s: string, k: nat)
    requires k < |s|
    ensures |Lower(s)| == |s|
    ensures Lower(s)[k] == if InTag(s, k) then LowerChar(s[k]) else s[k]
    decreases |s|
  {
    var m := FrontLength(s);
    LowerStep(s);
    LowerLength(s);
    if k < m {
      InTagFront(s, k);
    } else {
      InTagRest(s, k);
      LowerAt(s[m..], k - m);
    }
    hide *;
  }

  lemma {:induction false} LowerNone(s: string)
    requires forall i: nat, n: nat :: !TagAt(s, i, n)
    ensures Lower(s) == s
  {
    LowerLength(s);
    forall k | 0 <= k < |s|
      ensures Lower(s)[k] == s[k]
    {
      LowerAt(s, k);
    }
  }

  /** What a match consists of was there before, and its letters were not in a match. */
  lemma LowerKeeps(s: string, k: nat)
    requires k < |s|
    ensures |Lower(s)| == |s|
    ensures var c := Lower(s)[k];
            (c == '<' || c == '/' || c == '>' || c == 'U' || c == 'D') ==> s[k] == c
    ensures Lower(s)[k] == 'U' ==> !InTag(s, k)
  {
    LowerAt(s, k);
  }

  /** No match is left. */
  lemma LoweredNone(s: string, i: nat, n: nat)
    ensures !TagAt(Lower(s), i, n)
  {
    LowerLength(s);
    if i + n + 4 <= |s| {
      var r := Lower(s);
      forall k: nat | i <= k < i + n + 4
        ensures (r[k] == '<' || r[k] == '/' || r[k] == '>' || r[k] == 'U' || r[k] == 'D') ==> s[k] == r[k]
      {
        LowerKeeps(s, k);
      }
      LowerKeeps(s, i + n + 1);
      hide Lower;
      assert TagAt(r, i, n) ==> TagAt(s, i, n);
      assert TagAt(s, i, n) ==> InTag(s, i + n + 1);
    }
  }

  /** The substitution done again changes nothing. */
  lemma LowerIdempotent(s: string)
    ensures Lower(Lower(s)) == Lower(s)
  {
    forall i: nat, n: nat
      ensures !TagAt(Lower(s), i, n)
    {
      LoweredNone(s, i, n);
    }
    LowerNone(Lower(s));
  }

  /** No match goes across the place between a and b. */
  predicate Apart(a: string, b: string)
  {
    a == "" || b == "" || a[|a| - 1] == '>' || b[0] == '<'
  }

  lemma TagTake(a: string, b: string, n: nat)
    requires Apart(a, b) && a != ""
    ensures TagAt(a + b, 0, n) <==> TagAt(a, 0, n)
  {
    assert forall k :: 0 <= k < |a| ==> (a + b)[k] == a[k];
    if b != "" && |a| < n + 4 {
      assert (a + b)[|a|] == b[0];
    }
  }

  /** The first step is the same whatever follows. */
  lemma FrontTake(a: string, b: string)
    requires Apart(a, b) && a != ""
    ensures FrontLength(a + b) == FrontLength(a) <= |a|
    ensures LowerFront(a + b) == LowerFront(a) && Apart(a[FrontLength(a)..], b)
  {
    forall n: nat
      ensures TagAt(a + b, 0, n) <==> TagAt(a, 0, n)
    {
      TagTake(a, b, n);
    }
    if TagLength(a).Some? {
      TagsApart(a + b, 0, TagLength(a).value, 0, TagLength(a + b).value);
    }
    var n := FrontLength(a);
    SplitFront(a, b, n);
  }

  lemma SplitFront(a: string, b: string, n: nat)
    requires n <= |a|
    ensures (a + b)[..n] == a[..n] && (a + b)[n..] == a[n..] + b
  {
  }

  /** The two parts can be substituted separately. */
  lemma {:induction false} LowerConcat(a: string, b: string)
    requires Apart(a, b)
    ensures Lower(a + b) == Lower(a) + Lower(b)
    decreases |a|
  {
    if a == "" {
      assert a + b == b;
    } else {
      hide *;
      FrontTake(a, b);
      var n := FrontLength(a);
      LowerStep(a);
      LowerStep(a + b);
      SplitFront(a, b, n);
      LowerConcat(a[n..], b);
      Associative(LowerFront(a), Lower(a[n..]), Lower(b));
    }
  }

  // ---- Redaction ----

  function Redact(text: string, hash: string -> string): string
  {
    Rewrite(Lower(text), hash)
  }

  ghost predicate Lowered(s: string) { Lower(s) == s }

  lemma LoweredConcat(a: string, b: string)
    requires Apart(a, b)
    ensures Lowered(a + b) <==> Lowered(a) && Lowered(b)
  {
    LowerConcat(a, b);
    LowerLength(a);
    LowerLength(b);
    if Lowered(a + b) {
      assert a == (a + b)[..|a|] == Lower(a);
      assert b == (a + b)[|a|..] == Lower(b);
    }
  }

  lemma WithoutCapital(s: string)
    requires 'U' !in s
    ensures Lowered(s)
  {
    forall i: nat, n: nat
      ensures !TagAt(s, i, n)
    {
    }
    LowerNone(s);
  }

  /** Hashes bring in no capital tags, so the output needs no lowering. */
  lemma {:induction false} MappedLowered(p: Parsed, hash: string -> string)
    requires Lowered(Text(p)) && DigestBodies(p, hash)
    ensures Lowered(Text(MapBodies(p, hash)))
  {
    match p
    case Tail(_) =>
    case Region(gap, body, rest) =>
      var rest' := Text(MapBodies(rest, hash));
      WithoutCapital(hash(body));
      RegionLowered(gap, body, Text(rest));
      MappedLowered(rest, hash);
      WithoutCapital(OPEN);
      WithoutCapital(CLOSE);
      hide *;
      LoweredConcat(CLOSE, rest');
      LoweredConcat(hash(body), CLOSE + rest');
      LoweredConcat(OPEN, hash(body) + (CLOSE + rest'));
      LoweredConcat(gap, OPEN + (hash(body) + (CLOSE + rest')));
  }

  lemma RegionLowered(gap: string, body: string, rest: string)
    requires Lowered(gap + (OPEN + (body + (CLOSE + rest))))
    ensures Lowered(gap) && Lowered(rest)
  {
    hide Lowered;
    LoweredConcat(gap, OPEN + (body + (CLOSE + rest)));
    LoweredConcat(OPEN, body + (CLOSE + rest));
    LoweredConcat(body, CLOSE + rest);
    LoweredConcat(CLOSE, rest);
  }

  /**
   * The lowered text has one structure p. Its gaps and tail are in the output unchanged, its bodies are
   * replaced by their salted hashes, and that is also the structure which redaction finds in its own output.
   */
  lemma RedactCorrect(text: string, p: Parsed, sha1: string -> string, salt: string)
    requires Valid(p) && Text(p) == Lower(text) && DigestBodies(p, Salted(sha1, salt))
    ensures p == Scan(Lower(text))
    ensures var hash := Salted(sha1, salt);
            && Redact(text, hash) == Text(MapBodies(p, hash))
            && Lower(Redact(text, hash)) == Redact(text, hash)
            && Scan(Redact(text, hash)) == MapBodies(p, hash)
  {
    var hash := Salted(sha1, salt);
    hide Salted;
    ScanCorrect(Lower(text));
    Unique(p, Scan(Lower(text)));
    RewriteMeaning(p, hash);
    LowerIdempotent(text);
    MappedLowered(p, hash);
    MappedValid(p, hash);
    ScanCorrect(Redact(text, hash));
    Unique(MapBodies(p, hash), Scan(Redact(text, hash)));
  }

  /** With SHA-1 itself, for every text whose bodies are short enough to be hashed. */
  lemma RedactWithSha1(text: string, p: Parsed, salt: string)
    requires Valid(p) && Text(p) == Lower(text) && Hashable(p, salt)
    ensures var hash := Salted(Sha1Text, salt);
            && Redact(text, hash) == Text(MapBodies(p, hash))
            && Lower(Redact(text, hash)) == Redact(text, hash)
            && Scan(Redact(text, hash)) == MapBodies(p, hash)
  {
    HashableBodies(p, salt);
    RedactCorrect(text, p, Sha1Text, salt);
  }

  /** There is always such a structure. */
  lemma RedactTotal(text: string)
    ensures exists p :: Valid(p) && Text(p) == Lower(text)
  {
    ScanCorrect(Lower(text));
  }

  function Slashed(n: nat, letters: string): string
  {
    "<" + seq(n, _ => '/') + letters + ">"
  }

  lemma LowerEmpty()
    ensures Lower("") == ""
  {
  }

  lemma SlashedAt(n: nat)
    ensures TagAt(Slashed(n, "UD"), 0, n) && |Slashed(n, "UD")| == n + 4
  {
  }

  lemma SlashedAll(n: nat)
    ensures LowerAll(Slashed(n, "UD")) == Slashed(n, "ud") && 'U' !in Slashed(n, "ud")
  {
  }

  lemma SlashedLower(n: nat)
    ensures Lower(Slashed(n, "UD")) == Slashed(n, "ud") && Lower(Slashed(n, "ud")) == Slashed(n, "ud")
  {
    var s := Slashed(n, "UD");
    SlashedAt(n);
    SlashedAll(n);
    WithoutCapital(Slashed(n, "ud"));
    hide Slashed, Lower, LowerAll;
    TagsApart(s, 0, n, 0, TagLength(s).value);
    LowerStep(s);
    LowerEmpty();
    assert s[..n + 4] == s && s[n + 4..] == "";
  }

  /** A tag may be written in capitals or not, anywhere in any text, without a difference in the output. */
  lemma SpellingIsIrrelevant(a: string, n: nat, b: string, hash: string -> string)
    ensures Redact(a + (Slashed(n, "UD") + b), hash) == Redact(a + (Slashed(n, "ud") + b), hash)
  {
    SlashedLower(n);
    var (upper, lower) := (Slashed(n, "UD"), Slashed(n, "ud"));
    LowerConcat(upper, b);
    LowerConcat(lower, b);
    LowerConcat(a, upper + b);
    LowerConcat(a, lower + b);
  }

  predicate AllSlashes(s: string) { forall k :: 0 <= k < |s| ==> s[k] == '/' }

  /** What the pattern matches, spelt out. */
  lemma TagSpelling(s: string, i: nat, slashes: string)
    requires i + |slashes| + 4 <= |s| && AllSlashes(slashes)
    ensures TagAt(s, i, |slashes|) <==> s[i..i + |slashes| + 4] == "<" + slashes + "UD>"
  {
    var n := |slashes|;
    var m, t := s[i..i + n + 4], "<" + slashes + "UD>";
    if TagAt(s, i, n) {
      assert forall k :: 0 <= k < n + 4 ==> m[k] == t[k];
    }
    if m == t {
      assert forall k :: 0 <= k < n + 4 ==> m[k] == s[i + k];
      forall k | i < k <= i + n
        ensures s[k] == '/'
      {
        assert m[k - i] == t[k - i];
      }
    }
  }

  lemma SlashedSpelling(slashes: string)
    requires AllSlashes(slashes)
    ensures Slashed(|slashes|, "UD") == "<" + slashes + "UD>" && Slashed(|slashes|, "ud") == "<" + slashes + "ud>"
  {
    assert seq(|slashes|, _ => '/') == slashes;
    assert "UD" + ">" == "UD>" && "ud" + ">" == "ud>";
  }

  /** What the substitution makes of a match anywhere in a text. */
  lemma TagLowered(a: string, slashes: string, b: string)
    requires AllSlashes(slashes)
    ensures Lower(a + (("<" + slashes + "UD>") + b)) == Lower(a) + (("<" + slashes + "ud>") + Lower(b))
  {
    hide Lower, Slashed;
    SlashedSpelling(slashes);
    SlashedLower(|slashes|);
    LowerConcat("<" + slashes + "UD>", b);
    LowerConcat(a, ("<" + slashes + "UD>") + b);
  }

  /** The tags of a region in either spelling. */
  lemma TagsLower(open: string, close: string)
    requires (open == "<ud>" || open == "<UD>") && (close == "</ud>" || close == "</UD>")
    ensures Lower(open) == "<ud>" && Lower(close) == "</ud>"
  {
    hide Lower, Slashed;
    SlashedSpelling("");
    SlashedSpelling("/");
    SlashedLower(0);
    SlashedLower(1);
    assert "<" + "" + "UD>" == "<UD>" && "<" + "" + "ud>" == "<ud>";
    assert "<" + "/" + "UD>" == "</UD>" && "<" + "/" + "ud>" == "</ud>";
  }

  lemma LowerRegion(a: string, open: string, body: string, close: string, b: string)
    requires (open == "<ud>" || open == "<UD>") && (close == "</ud>" || close == "</UD>")
    ensures Lower(a + (open + (body + (close + b))))
         == Lower(a) + ("<ud>" + (Lower(body) + ("</ud>" + Lower(b))))
  {
    TagsLower(open, close);
    hide Lower;
    LowerConcat(close, b);
    LowerConcat(body, close + b);
    LowerConcat(open, body + (close + b));
    LowerConcat(a, open + (body + (close + b)));
  }

  lemma RewriteRegion(a: string, body: string, b: string, hash: string -> string)
    requires Without(a, "<ud>") && Without(body, "</ud>")
    ensures Rewrite(a + ("<ud>" + (body + ("</ud>" + b))), hash)
         == a + ("<ud>" + (hash(body) + ("</ud>" + Rewrite(b, hash))))
  {
    hide Rewrite, Scan, Without;
    ScanCorrect(b);
    RewriteScan(b, hash);
    RewriteMeaning(Region(a, body, Scan(b)), hash);
  }

  /**
   * The first region of any text, in either spelling: what precedes it is kept, its body is replaced by its
   * hash between lower-case tags, and the rest is redacted for itself.
   */
  lemma RegionRedacted(a: string, open: string, body: string, close: string, b: string, hash: string -> string)
    requires (open == "<ud>" || open == "<UD>") && (close == "</ud>" || close == "</UD>")
    requires Without(Lower(a), "<ud>") && Without(Lower(body), "</ud>")
    ensures Redact(a + (open + (body + (close + b))), hash)
         == Lower(a) + ("<ud>" + (hash(Lower(body)) + ("</ud>" + Redact(b, hash))))
  {
    LowerRegion(a, open, body, close, b);
    hide Lower, Rewrite, Without;
    RewriteRegion(Lower(a), Lower(body), Lower(b), hash);
  }

  lemma Plain(s: string, tag: string)
    requires '<' !in s && IsTag(tag)
    ensures Lower(s) == s && Without(s, tag)
  {
    forall i: nat, n: nat
      ensures !TagAt(s, i, n)
    {
    }
    LowerNone(s);
    forall i: nat
      ensures !At(s, i, tag)
    {
      if i + |tag| <= |s| {
        assert s[i..i + |tag|][0] == s[i];
      }
    }
  }

  /** Where no '<' gets in the way: the body is replaced by the hash of the salt and the body. */
  lemma SaltIsHashed(a: string, body: string, b: string, sha1: string -> string, salt: string)
    requires '<' !in a && '<' !in body
    ensures var hash := Salted(sha1, salt);
            && Redact(a + ("<ud>" + (body + ("</ud>" + b))), hash)
               == a + ("<ud>" + (sha1(salt + body) + ("</ud>" + Redact(b, hash))))
            && Redact(a + ("<UD>" + (body + ("</UD>" + b))), hash)
               == a + ("<ud>" + (sha1(salt + body) + ("</ud>" + Redact(b, hash))))
  {
    Plain(a, "<ud>");
    Plain(body, "</ud>");
    hide Redact, Lower, Without;
    RegionRedacted(a, "<ud>", body, "</ud>", b, Salted(sha1, salt));
    RegionRedacted(a, "<UD>", body, "</UD>", b, Salted(sha1, salt));
  }

  /** A field that is one region, and a text without '<'. */
  lemma FieldRedacted(body: string, sha1: string -> string, salt: string)
    requires '<' !in body
    ensures var hash := Salted(sha1, salt);
            && Redact("<ud>" + body + "</ud>", hash) == "<ud>" + sha1(salt + body) + "</ud>"
            && Redact("<UD>" + body + "</UD>", hash) == "<ud>" + sha1(salt + body) + "</ud>"
            && Redact(body, hash) == body
  {
    var hash := Salted(sha1, salt);
    SaltIsHashed("", body, "", sha1, salt);
    NothingToRedact("", hash);
    NothingToRedact(body, hash);
    hide *;
    OnlyRegion("<ud>", body, "</ud>");
    OnlyRegion("<UD>", body, "</UD>");
    OnlyRegion("<ud>", sha1(salt + body), "</ud>");
  }

  lemma OnlyRegion(open: string, body: string, close: string)
    ensures "" + (open + (body + (close + ""))) == open + body + close
  {
  }

  lemma NothingToRedact(s: string, hash: string -> string)
    requires '<' !in s
    ensures Redact(s, hash) == s
  {
    Plain(s, "<ud>");
    hide Lower, Rewrite;
    RewriteMeaning(Tail(s), hash);
  }

  /** Lowering the tags beforehand makes no difference either. */
  lemma RedactLowered(text: string, hash: string -> string)
    ensures Redact(Lower(text), hash) == Redact(text, hash)
  {
    LowerIdempotent(text);
  }

  // ---- cb_sub_message ----

  const KEYS := ["log", "message", "host", "user", "method", "path", "code", "size", "client"]

  /** The keys of a log record that hold strings. */
  class Record {
    var fields: map<string, string>

    /** The record is overwritten in place; the first result says whether it was (2) or not (0). */
    method CbSubMessage(sha1: string -> string, salt: string) returns (code: int, timestamp: int)
      modifies this
      ensures fields.Keys == old(fields).Keys
      ensures forall key :: key in fields && key in KEYS ==> fields[key] == Redact(old(fields)[key], Salted(sha1, salt))
      ensures forall key :: key in fields && key !in KEYS ==> fields[key] == old(fields)[key]
      ensures KEYS == ["log", "message", "host", "user", "method", "path", "code", "size", "client"]
      ensures code == (if exists key :: key in KEYS && key in old(fields) then 2 else 0) && timestamp == 0
    {
      KeysDistinct();
      hide KEYS, Lower, Rewrite;
      var changed := false;
      for i := 0 to |KEYS|
        invariant fields.Keys == old(fields).Keys
        invariant forall key :: key in fields && key in KEYS[..i]
                            ==> fields[key] == Redact(old(fields)[key], Salted(sha1, salt))
        invariant forall key :: key in fields && key !in KEYS[..i] ==> fields[key] == old(fields)[key]
        invariant changed <==> exists key :: key in KEYS[..i] && key in old(fields)
      {
        var currentKey := KEYS[i];
        assert currentKey !in KEYS[..i];
        assert KEYS[..i + 1] == KEYS[..i] + [currentKey];
        if currentKey in fields {
          var lowered := Lower(fields[currentKey]);
          var redacted := Rewrite(lowered, Salted(sha1, salt));
          fields := fields[currentKey := redacted];
          changed := true;
        }
      }
      assert KEYS[..|KEYS|] == KEYS;
      if changed {
        return 2, 0;
      }
      return 0, 0;
    }
  }

  lemma KeysDistinct()
    ensures KEYS == ["log", "message", "host", "user", "method", "path", "code", "size", "client"]
    ensures forall i, j :: 0 <= i < j < |KEYS| ==> KEYS[i] != KEYS[j]
  {
  }
}
