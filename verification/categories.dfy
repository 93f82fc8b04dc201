/** `_validate_categories` and the reading of the `category_names` argument. */
module Categories {
  import opened Results

  /** The category names the worker understands, in the order the error
      message lists them. */
  const ValidCategories: seq<string> := [
    "Application", "Connectors", "CriticalUpdates", "DefinitionUpdates",
    "DeveloperKits", "FeaturePacks", "Guidance", "SecurityUpdates",
    "ServicePacks", "Tools", "UpdateRollups", "Updates"
  ]

  /** The categories used when the task gives no `category_names`. */
  const DefaultCategories: seq<string> := ["CriticalUpdates", "SecurityUpdates", "UpdateRollups"]

  /** How the task supplied `category_names`: a list of names, a YAML string
      (split on commas, each piece stripped), or any other text string, which
      Python iterates one character at a time. */
  datatype CategoryArg = NameList(names: seq<string>) | YamlText(text: string) | PlainText(text: string)

  /** `sep.join(parts)`. */
  function JoinWith(parts: seq<string>, sep: char): string
  {
    if |parts| == 0 then ""
    else if |parts| == 1 then parts[0]
    else parts[0] + [sep] + JoinWith(parts[1..], sep)
  }

  /** `s.split(sep)`: the pieces between separators, never an empty list. */
  function SplitOn(s: string, sep: char): (parts: seq<string>)
    ensures |parts| >= 1
    ensures forall i :: 0 <= i < |parts| ==> sep !in parts[i]
  {
    if |s| == 0 then [""]
    else
      var rest := SplitOn(s[1..], sep);
      if s[0] == sep then [""] + rest
      else [[s[0]] + rest[0]] + rest[1..]
  }

  /** Joining the pieces again gives back the text. */
  lemma {:induction false} JoinSplit(s: string, sep: char)
    ensures JoinWith(SplitOn(s, sep), sep) == s
  {
    if |s| > 0 {
      JoinSplit(s[1..], sep);
      var rest := SplitOn(s[1..], sep);
      if s[0] == sep {
        assert ([""] + rest)[1..] == rest;
      } else {
        var parts := SplitOn(s, sep);
        assert parts[1..] == rest[1..];
        if |rest| == 1 {
          assert parts == [[s[0]] + rest[0]];
        } else {
          assert rest[1..][1..] == rest[2..];
          assert JoinWith(rest, sep) == rest[0] + [sep] + JoinWith(rest[1..], sep);
        }
      }
    }
  }

  /** Splitting text that starts with a separator-free piece and a separator. */
  lemma {:induction false} SplitAfterPiece(a: string, sep: char, b: string)
    requires sep !in a
    ensures SplitOn(a + [sep] + b, sep) == [a] + SplitOn(b, sep)
  {
    if |a| == 0 {
      assert a + [sep] + b == [sep] + b;
      assert ([sep] + b)[1..] == b;
    } else {
      assert (a + [sep] + b)[1..] == a[1..] + [sep] + b;
      SplitAfterPiece(a[1..], sep, b);
      assert [a[0]] + a[1..] == a;
    }
  }

  /** Splitting the joined text recovers the pieces when none holds the separator. */
  lemma {:induction false} SplitJoin(parts: seq<string>, sep: char)
    requires |parts| >= 1
    requires forall i :: 0 <= i < |parts| ==> sep !in parts[i]
    ensures SplitOn(JoinWith(parts, sep), sep) == parts
  {
    if |parts| == 1 {
      SplitWithoutSeparator(parts[0], sep);
    } else {
      SplitJoin(parts[1..], sep);
      SplitAfterPiece(parts[0], sep, JoinWith(parts[1..], sep));
    }
  }

  /** Text with no separator splits into itself alone. */
  lemma {:induction false} SplitWithoutSeparator(s: string, sep: char)
    requires sep !in s
    ensures SplitOn(s, sep) == [s]
  {
    if |s| > 0 {
      SplitWithoutSeparator(s[1..], sep);
      assert [s[0]] + s[1..] == s;
    }
  }

  /** The characters for which Python's `str.isspace` holds. */
  const Whitespace: set<char> := {
    ' ', '\t', '\n', '\r', '\U{000B}', '\U{000C}',
    '\U{001C}', '\U{001D}', '\U{001E}', '\U{001F}',
    '\U{0085}', '\U{00A0}', '\U{1680}',
    '\U{2000}', '\U{2001}', '\U{2002}', '\U{2003}', '\U{2004}', '\U{2005}',
    '\U{2006}', '\U{2007}', '\U{2008}', '\U{2009}', '\U{200A}',
    '\U{2028}', '\U{2029}', '\U{202F}', '\U{205F}', '\U{3000}'
  }

  /** `s.lstrip(chars)`: the suffix of `s` that starts at its first
      character outside `ws`. */
  function TrimStart(s: string, ws: set<char>): (r: string)
    ensures |r| <= |s| && r == s[|s| - |r|..]
    ensures forall k :: 0 <= k < |s| - |r| ==> s[k] in ws
    ensures |r| > 0 ==> r[0] !in ws
  {
    if |s| > 0 && s[0] in ws then TrimStart(s[1..], ws) else s
  }

  /** `s.rstrip(chars)`: the prefix of `s` that ends at its last character
      outside `ws`. */
  function TrimEnd(s: string, ws: set<char>): (r: string)
    ensures |r| <= |s| && r == s[..|r|]
    ensures forall k :: |r| <= k < |s| ==> s[k] in ws
    ensures |r| > 0 ==> r[|r| - 1] !in ws
  {
    if |s| > 0 && s[|s| - 1] in ws then TrimEnd(s[..|s| - 1], ws) else s
  }

  /** `s.strip(chars)`; with `ws` = Whitespace it is Python's `s.strip()`:
      `s` without its leading and trailing whitespace. */
  function Strip(s: string, ws: set<char>): (r: string)
    ensures |r| <= |s|
    ensures |r| > 0 ==> r[0] !in ws && r[|r| - 1] !in ws
  {
    var t := TrimStart(s, ws);
    var r := TrimEnd(t, ws);
    assert |r| > 0 ==> r[0] == t[0];
    r
  }

  /** Where the stripped text starts in `s`: after its leading whitespace. */
  function StripStart(s: string, ws: set<char>): nat
  {
    |s| - |TrimStart(s, ws)|
  }

  /** `r` is the slice of `s` starting at `i`, and everything of `s` before
      and after that slice is in `ws`. */
  predicate SliceBetween(s: string, i: nat, r: string, ws: set<char>) {
    && i + |r| <= |s|
    && r == s[i..i + |r|]
    && (forall k :: 0 <= k < i ==> s[k] in ws)
    && (forall k :: i + |r| <= k < |s| ==> s[k] in ws)
  }

  /** The stripped text is the slice of `s` between a run of leading and a
      run of trailing whitespace. */
  lemma StripIsSlice(s: string, ws: set<char>)
    ensures SliceBetween(s, StripStart(s, ws), Strip(s, ws), ws)
  {
    var t := TrimStart(s, ws);
    var i := StripStart(s, ws);
    SliceOfTrimmed(s, i, t, TrimEnd(t, ws), ws);
  }

  /** A prefix `r` of the suffix `t == s[i..]` is the slice `s[i..i + |r|]`,
      and what `r` leaves of `t` at the end is also at the end of `s`. */
  lemma SliceOfTrimmed(s: string, i: nat, t: string, r: string, ws: set<char>)
    requires i <= |s| && t == s[i..]
    requires |r| <= |t| && r == t[..|r|]
    requires forall k :: |r| <= k < |t| ==> t[k] in ws
    ensures i + |r| <= |s| && r == s[i..i + |r|]
    ensures forall k :: i + |r| <= k < |s| ==> s[k] in ws
  {
    forall k | i + |r| <= k < |s|
      ensures s[k] in ws
    {
      assert s[k] == t[k - i];
    }
  }

  /** A name with no outer whitespace is left as it is by Strip. */
  lemma StripKeepsTrimmed(s: string, ws: set<char>)
    requires |s| > 0 ==> s[0] !in ws && s[|s| - 1] !in ws
    ensures Strip(s, ws) == s
  {
    if |s| > 0 {
      assert TrimStart(s, ws) == s;
      assert s[|s| - 1] !in ws;
    }
  }

  /** A name with no whitespace at either end. */
  predicate Trimmed(name: string) {
    |name| > 0 ==> name[0] !in Whitespace && name[|name| - 1] !in Whitespace
  }

  /** Strip every piece, as the list comprehension on the split text does:
      one name per piece, each the slice of its piece left once the leading
      and trailing whitespace is removed, with no whitespace at either end,
      and a piece already without outer whitespace kept as it is. */
  function StripAll(parts: seq<string>): (r: seq<string>)
    ensures |r| == |parts|
    ensures forall i :: 0 <= i < |r| ==> SliceBetween(parts[i], StripStart(parts[i], Whitespace), r[i], Whitespace)
    ensures forall i :: 0 <= i < |r| ==> Trimmed(r[i])
    ensures forall i, c :: 0 <= i < |r| && c in r[i] ==> c in parts[i]
    ensures forall i :: 0 <= i < |parts| && Trimmed(parts[i]) ==> r[i] == parts[i]
  {
    forall i | 0 <= i < |parts|
      ensures SliceBetween(parts[i], StripStart(parts[i], Whitespace), Strip(parts[i], Whitespace), Whitespace)
    {
      StripIsSlice(parts[i], Whitespace);
    }
    forall i | 0 <= i < |parts| && Trimmed(parts[i])
      ensures Strip(parts[i], Whitespace) == parts[i]
    {
      StripKeepsTrimmed(parts[i], Whitespace);
    }
    seq(|parts|, i requires 0 <= i < |parts| => Strip(parts[i], Whitespace))
  }

  /** The names the task's `category_names` argument stands for. */
  function CategoryNames(arg: Option<CategoryArg>): seq<string>
  {
    match arg
    case None => DefaultCategories
    case Some(NameList(names)) => names
    case Some(YamlText(text)) => StripAll(SplitOn(text, ','))
    case Some(PlainText(text)) => seq(|text|, i requires 0 <= i < |text| => [text[i]])
  }

  /** A YAML string of comma-separated, already trimmed names yields exactly
      those names. */
  lemma YamlTextRoundTrip(names: seq<string>)
    requires |names| >= 1
    requires forall i :: 0 <= i < |names| ==> ',' !in names[i]
    requires forall i :: 0 <= i < |names| ==> Trimmed(names[i])
    ensures CategoryNames(Some(YamlText(JoinWith(names, ',')))) == names
  {
    SplitJoin(names, ',');
    StripAllKeepsTrimmed(names);
  }

  /** Pieces that all lack outer whitespace come through StripAll unchanged. */
  lemma StripAllKeepsTrimmed(parts: seq<string>)
    requires forall i :: 0 <= i < |parts| ==> Trimmed(parts[i])
    ensures StripAll(parts) == parts
  {
    var r := StripAll(parts);
    forall i | 0 <= i < |parts|
      ensures r[i] == parts[i]
    {
      assert Trimmed(parts[i]);
    }
  }

  /** Strip finds the one slice it can: a name with no whitespace at either
      end, surrounded only by whitespace, is what stripping the text gives. */
  lemma StripFindsSlice(s: string, a: nat, n: string, ws: set<char>)
    requires SliceBetween(s, a, n, ws)
    requires |n| > 0 ==> n[0] !in ws && n[|n| - 1] !in ws
    ensures Strip(s, ws) == n
  {
    var i, r := StripStart(s, ws), Strip(s, ws);
    StripIsSlice(s, ws);
    if |r| > 0 {
      // The first and last characters of r are outside ws, so r starts where
      // the leading run ends and stops where the trailing run begins.
      assert s[i] == r[0] && s[i + |r| - 1] == r[|r| - 1];
      assert |n| > 0 && a <= i && i + |r| <= a + |n|;
    }
    if |n| > 0 {
      assert s[a] == n[0] && s[a + |n| - 1] == n[|n| - 1];
      assert |r| > 0 && i <= a && a + |n| <= i + |r|;
    }
  }

  /** Each name with whitespace put before and after it. */
  function Pad(pre: seq<string>, names: seq<string>, post: seq<string>): (r: seq<string>)
    requires |pre| == |names| == |post|
    ensures |r| == |names|
    ensures forall i :: 0 <= i < |r| ==> r[i] == pre[i] + names[i] + post[i]
  {
    seq(|names|, i requires 0 <= i < |names| => pre[i] + names[i] + post[i])
  }

  /** Names written with whitespace around them in a YAML string of
      comma-separated names, say "CriticalUpdates, SecurityUpdates", come
      back without it. */
  lemma YamlTextPaddedRoundTrip(pre: seq<string>, names: seq<string>, post: seq<string>)
    requires |names| >= 1 && |pre| == |names| == |post|
    requires forall i :: 0 <= i < |names| ==> ',' !in names[i]
    requires forall i :: 0 <= i < |names| ==> Trimmed(names[i])
    requires forall i, c :: 0 <= i < |pre| && c in pre[i] ==> c in Whitespace
    requires forall i, c :: 0 <= i < |post| && c in post[i] ==> c in Whitespace
    ensures CategoryNames(Some(YamlText(JoinWith(Pad(pre, names, post), ',')))) == names
  {
    var padded := Pad(pre, names, post);
    forall i | 0 <= i < |padded|
      ensures ',' !in padded[i]
      ensures SliceBetween(padded[i], |pre[i]|, names[i], Whitespace)
    {
      assert ',' !in Whitespace;
      var p := padded[i];
      assert p == pre[i] + names[i] + post[i];
      forall k | 0 <= k < |p|
        ensures p[k] != ','
      {
        if k < |pre[i]| {
          assert p[k] == pre[i][k];
        } else if k < |pre[i]| + |names[i]| {
          assert p[k] == names[i][k - |pre[i]|];
        } else {
          assert p[k] == post[i][k - |pre[i]| - |names[i]|];
        }
      }
      SliceOfPadding(pre[i], names[i], post[i]);
    }
    SplitJoin(padded, ',');
    var r := StripAll(padded);
    forall i | 0 <= i < |names|
      ensures r[i] == names[i]
    {
      assert Trimmed(names[i]);
      StripFindsSlice(padded[i], |pre[i]|, names[i], Whitespace);
    }
  }

  /** A name with whitespace around it sits between whitespace runs. */
  lemma SliceOfPadding(pre: string, n: string, post: string)
    requires forall c :: c in pre ==> c in Whitespace
    requires forall c :: c in post ==> c in Whitespace
    ensures SliceBetween(pre + n + post, |pre|, n, Whitespace)
  {
    var p := pre + n + post;
    assert p[|pre|..|pre| + |n|] == n;
    forall k | 0 <= k < |pre|
      ensures p[k] in Whitespace
    {
      assert p[k] == pre[k];
    }
    forall k | |pre| + |n| <= k < |p|
      ensures p[k] in Whitespace
    {
      assert p[k] == post[k - |pre| - |n|];
    }
  }

  /** The error raised for the first unknown name. */
  function UnknownCategoryMessage(name: string): string
  {
    "Unknown category_name " + name + ", must be one of (" + JoinWith(ValidCategories, ',') + ")"
  }

  /** The list inside the message recovers all the valid names. */
  lemma MessageListsEveryCategory()
    ensures SplitOn(JoinWith(ValidCategories, ','), ',') == ValidCategories
    ensures |ValidCategories| == 12
  {
    SplitJoin(ValidCategories, ',');
  }

  /** One of the category names the worker understands. */
  predicate Known(name: string) {
    name in ValidCategories
  }

  /** `names[i]` is the first name that is not a known category. */
  predicate FirstUnknownAt(names: seq<string>, i: int) {
    && 0 <= i < |names|
    && !Known(names[i])
    && forall j :: 0 <= j < i ==> Known(names[j])
  }

  /** The position of the first name outside `valid`, or `|names|` when
      every name is in it: where the `for` loop of `_validate_categories`
      raises, if it does. */
  function FirstUnknownIndex(names: seq<string>, valid: seq<string>): (k: nat)
    ensures k <= |names|
    ensures forall j :: 0 <= j < k ==> names[j] in valid
    ensures k < |names| ==> names[k] !in valid
  {
    if |names| == 0 then 0
    else if names[0] !in valid then 0
    else
      var k := FirstUnknownIndex(names[1..], valid);
      assert forall j :: 1 <= j < |names| ==> names[j] == names[1..][j - 1];
      k + 1
  }

  /** `_validate_categories`: passes iff every name is valid, and otherwise
      fails naming the first unknown one. */
  function CheckCategories(names: seq<string>): (r: Outcome)
    ensures r.Pass? <==> forall i :: 0 <= i < |names| ==> Known(names[i])
    ensures r.Fail? ==> exists i :: FirstUnknownAt(names, i) && r.msg == UnknownCategoryMessage(names[i])
  {
    var k := FirstUnknownIndex(names, ValidCategories);
    if k == |names| then Pass
    else
      assert FirstUnknownAt(names, k);
      Fail(UnknownCategoryMessage(names[k]))
  }

  /** The default categories are all valid. */
  lemma DefaultCategoriesValid()
    ensures CheckCategories(CategoryNames(None)).Pass?
  {
  }

  /** A category given as a plain string is checked character by character,
      so even a valid name is refused with its first character. */
  lemma PlainTextRefused()
    ensures CheckCategories(CategoryNames(Some(PlainText("Updates")))) == Fail(UnknownCategoryMessage("U"))
  {
    var names := CategoryNames(Some(PlainText("Updates")));
    assert names[0] == "U";
    assert |names| > 0;
    assert "U" !in ValidCategories;
  }
}
