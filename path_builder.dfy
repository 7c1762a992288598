/** Derivation of the object-storage key of a submission and of the local
    staging path the download is written to. */
module PathBuilder {
  import opened Text
  import opened Event

  predicate IsAsciiLetter(c: char) {
    'a' <= c <= 'z' || 'A' <= c <= 'Z'
  }

  /** Python's `\s` on `str` patterns: the characters for which `str.isspace` holds. */
  predicate IsPyWhitespace(c: char) {
    ('\t' <= c <= '\r') || ('\U{1C}' <= c <= ' ') || c == '\U{85}' || c == '\U{A0}'
    || c == '\U{1680}' || ('\U{2000}' <= c <= '\U{200A}') || c == '\U{2028}' || c == '\U{2029}'
    || c == '\U{202F}' || c == '\U{205F}' || c == '\U{3000}'
  }

  /** The character class `[a-zA-Z0-9\s]`: what the filter keeps. */
  predicate IsKept(c: char) {
    IsAsciiLetter(c) || IsDigit(c) || IsPyWhitespace(c)
  }

  /** What a slug may contain: lower-case ASCII letters, digits, `_`, and whitespace other than the space. */
  predicate IsSlugChar(c: char) {
    'a' <= c <= 'z' || IsDigit(c) || c == '_' || (IsPyWhitespace(c) && c != ' ')
  }

  /** `re.sub(r'[^a-zA-Z0-9\s]', '', s)`: drop every character outside the kept class, keeping order. */
  function StripSpecial(s: string): (r: string)
    ensures |r| <= |s|
  {
    if s == [] then []
    else (if IsKept(s[0]) then [s[0]] else []) + StripSpecial(s[1..])
  }

  /** The filter keeps exactly the characters of the class, and only those. */
  lemma {:induction false} StripSpecialMembers(s: string)
    ensures forall c :: c in StripSpecial(s) <==> c in s && IsKept(c)
  {
    if s != [] {
      StripSpecialMembers(s[1..]);
      assert s == [s[0]] + s[1..];
    }
  }

  /** A string made only of kept characters passes the filter unchanged. */
  lemma {:induction false} StripSpecialKeepsClean(s: string)
    requires forall c :: c in s ==> IsKept(c)
    ensures StripSpecial(s) == s
  {
    if s != [] {
      assert s[0] in s;
      assert forall c :: c in s[1..] ==> c in s;
      StripSpecialKeepsClean(s[1..]);
      assert s == [s[0]] + s[1..];
    }
  }

  /** The filter decides one character at a time. */
  lemma StripSpecialChar(c: char)
    ensures StripSpecial([c]) == if IsKept(c) then [c] else []
  {
  }

  /** The filter works piecewise: kept characters stay in order and with their
      counts, so with `StripSpecialChar` it is fixed on every string. */
  lemma {:induction false} StripSpecialConcat(a: string, b: string)
    ensures StripSpecial(a + b) == StripSpecial(a) + StripSpecial(b)
  {
    if a == [] {
      assert a + b == b;
    } else {
      var head := if IsKept(a[0]) then [a[0]] else [];
      assert (a + b)[0] == a[0] && (a + b)[1..] == a[1..] + b;
      calc {
        StripSpecial(a + b);
        head + StripSpecial(a[1..] + b);
        { StripSpecialConcat(a[1..], b); }
        head + (StripSpecial(a[1..]) + StripSpecial(b));
        (head + StripSpecial(a[1..])) + StripSpecial(b);
        StripSpecial(a) + StripSpecial(b);
      }
    }
  }

  function LowerChar(c: char): char {
    if 'A' <= c <= 'Z' then (c as int - 'A' as int + 'a' as int) as char else c
  }

  /** `str.lower()` on strings whose only letters are ASCII; other characters are kept as they are. */
  function LowerAscii(s: string): (r: string)
    ensures |r| == |s|
    ensures forall i {:trigger r[i]} :: 0 <= i < |s| ==> r[i] == LowerChar(s[i])
  {
    if s == [] then [] else [LowerChar(s[0])] + LowerAscii(s[1..])
  }

  function UpperChar(c: char): char {
    if 'a' <= c <= 'z' then (c as int - 'a' as int + 'A' as int) as char else c
  }

  /** One field's slug: filtered, lower-cased, spaces turned into underscores. */
  function Slug(s: string): (r: string)
    ensures |r| == |StripSpecial(s)|
    ensures forall c :: c in r ==> IsSlugChar(c)
  {
    var f := StripSpecial(s);
    var r := ReplaceChar(LowerAscii(f), ' ', '_');
    StripSpecialMembers(s);
    assert forall i :: 0 <= i < |r| ==> IsSlugChar(r[i]) by {
      forall i | 0 <= i < |r| ensures IsSlugChar(r[i]) { assert f[i] in f; }
    }
    r
  }

  lemma ReplaceSpaceMember(l: string, c: char)
    ensures c != '_' && c != ' ' ==> (c in ReplaceChar(l, ' ', '_') <==> c in l)
    ensures '_' !in l ==> ('_' in ReplaceChar(l, ' ', '_') <==> ' ' in l)
  {
    var r := ReplaceChar(l, ' ', '_');
    if c in r { var i :| 0 <= i < |r| && r[i] == c; assert c != '_' ==> l[i] == c; }
    if c in l { var i :| 0 <= i < |l| && l[i] == c; assert c != ' ' ==> r[i] == c; }
    if '_' in r && '_' !in l { var i :| 0 <= i < |r| && r[i] == '_'; assert l[i] == ' '; }
    if ' ' in l { var i :| 0 <= i < |l| && l[i] == ' '; assert r[i] == '_'; }
  }

  lemma LowerMember(f: string, c: char)
    ensures 'a' <= c <= 'z' ==> (c in LowerAscii(f) <==> c in f || UpperChar(c) in f)
    ensures !IsAsciiLetter(c) ==> (c in LowerAscii(f) <==> c in f)
  {
    var l := LowerAscii(f);
    if c in l { var i :| 0 <= i < |l| && l[i] == c; assert f[i] == c || f[i] == UpperChar(c); }
    if c in f { var i :| 0 <= i < |f| && f[i] == c; assert !('A' <= c <= 'Z') ==> l[i] == c; }
    if UpperChar(c) in f { var i :| 0 <= i < |f| && f[i] == UpperChar(c); assert 'a' <= c <= 'z' ==> l[i] == c; }
  }

  /** Which characters a slug holds: a lower-case letter exactly when the field
      has it in either case, a digit or a non-space whitespace character exactly
      when the field has it, and an underscore exactly when the field has a space. */
  lemma SlugContents(s: string)
    ensures forall c :: 'a' <= c <= 'z' ==> (c in Slug(s) <==> c in s || UpperChar(c) in s)
    ensures forall c :: IsDigit(c) || (IsPyWhitespace(c) && c != ' ') ==> (c in Slug(s) <==> c in s)
    ensures '_' in Slug(s) <==> ' ' in s
  {
    var f := StripSpecial(s);
    var l := LowerAscii(f);
    StripSpecialMembers(s);
    assert Slug(s) == ReplaceChar(l, ' ', '_');
    forall c | 'a' <= c <= 'z' ensures c in Slug(s) <==> c in s || UpperChar(c) in s {
      ReplaceSpaceMember(l, c);
      LowerMember(f, c);
    }
    forall c | IsDigit(c) || (IsPyWhitespace(c) && c != ' ') ensures c in Slug(s) <==> c in s {
      ReplaceSpaceMember(l, c);
      LowerMember(f, c);
    }
    LowerMember(f, '_');
    LowerMember(f, ' ');
    ReplaceSpaceMember(l, '_');
  }

  /** The file-name segment of a key: `first_last_attempts.zip`. */
  function FileName(info: SubmissionInfo): (file: string)
    ensures '/' !in file
    ensures EndsWith(file, ".zip")
  {
    var stem := Slug(info.firstName) + "_" + Slug(info.lastName) + "_" + IntToString(info.attempts);
    assert '/' !in stem;
    EndsWithConcat(stem, ".zip", ".zip");
    stem + ".zip"
  }

  /** Read back on `_`, the file name before `.zip` ends with `str(attempts)`, and
      the parts before it join back to the first-name and last-name slugs, so the
      segment is exactly `first_last_attempts.zip` even though the names may hold `_`. */
  lemma FileNameReadBack(info: SubmissionInfo)
    ensures var file := FileName(info);
      var parts := Split(file[..|file| - 4], '_');
      parts[|parts| - 1] == IntToString(info.attempts)
      && Join(parts[..|parts| - 1], '_') == Slug(info.firstName) + "_" + Slug(info.lastName)
  {
    var f, l, n := Slug(info.firstName), Slug(info.lastName), IntToString(info.attempts);
    var stem := f + "_" + l + "_" + n;
    assert FileName(info) == stem + ".zip";
    assert (stem + ".zip")[..|stem + ".zip"| - 4] == stem;
    assert '_' !in n;
    SplitWithout(n, '_');
    SplitConcat(f + "_" + l, '_', n);
    var front := Split(f + "_" + l, '_');
    assert (front + [n])[..|front + [n]| - 1] == front;
    JoinSplit(f + "_" + l, '_');
  }

  /** `create_path`: the key `assignment/email/first_last_attempts.zip`. Read back
      on `/`, it gives the assignment slug, the email slug and the file name, so
      it holds exactly two `/`; it ends in `.zip`. */
  function CreatePath(info: SubmissionInfo): (key: string)
    ensures Split(key, '/') == [Slug(info.assignmentName), Slug(info.email), FileName(info)]
    ensures multiset(key)['/'] == 2
    ensures EndsWith(key, ".zip")
  {
    var a, e, file := Slug(info.assignmentName), Slug(info.email), FileName(info);
    assert '/' !in a && '/' !in e;
    SplitThree(a, e, file, '/');
    SplitParts(a + "/" + e + "/" + file, '/');
    EndsWithConcat(a + "/" + e + "/", file, ".zip");
    a + "/" + e + "/" + file
  }

  /** The key depends on the assignment name, the email, the two names and the
      attempt count only: the other fields of the record do not reach it. */
  lemma CreatePathReadsIdentityOnly(x: SubmissionInfo, y: SubmissionInfo)
    requires x.assignmentName == y.assignmentName && x.email == y.email
    requires x.firstName == y.firstName && x.lastName == y.lastName && x.attempts == y.attempts
    ensures CreatePath(x) == CreatePath(y)
  {
  }

  /** The handler's `'/tmp/' + destination.replace('/', '_')`. */
  function StagingPath(key: string): (p: string)
    ensures |p| == 5 + |key|
    ensures p[..5] == "/tmp/"
    ensures '/' !in p[5..]
  {
    var flat := ReplaceChar(key, '/', '_');
    assert ("/tmp/" + flat)[5..] == flat;
    "/tmp/" + flat
  }

  /** The staging path of a key is its three segments joined with `_` under `/tmp/`. */
  lemma StagingPathOfKey(info: SubmissionInfo)
    ensures StagingPath(CreatePath(info))
      == "/tmp/" + (Slug(info.assignmentName) + "_" + Slug(info.email) + "_" + FileName(info))
  {
    var a, e, file := Slug(info.assignmentName), Slug(info.email), FileName(info);
    var key := CreatePath(info);
    assert '/' !in a && '/' !in e;
    assert key == a + "/" + e + "/" + file;
    ReplaceThree(a, e, file, '/', '_');
    var flat := a + "_" + e + "_" + file;
    assert ReplaceChar(key, '/', '_') == flat;
    assert StagingPath(key) == "/tmp/" + ReplaceChar(key, '/', '_');
  }
}
