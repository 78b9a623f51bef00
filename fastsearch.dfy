/**
 * The scan of FastSearch (3/fast.go) over the lines of the users file, each
 * already decoded into a User or marked undecodable: it collects the distinct
 * Android and MSIE browsers, lists the users who have both kinds with their
 * e-mail's first `@` rewritten, and ends with the count of distinct browsers.
 * Output is the sequence of lines FastSearch prints, each without its final
 * newline. File reading and JSON decoding are outside the model.
 */
module FastSearch {
  import opened GoStd

  datatype User = User(browsers: seq<string>, email: string, name: string)

  /** The browsers FastSearch records: those naming Android or MSIE. */
  predicate IsTarget(browser: string)
  {
    Contains(browser, "Android") || Contains(browser, "MSIE")
  }

  /** Some browser of the list contains kind. */
  predicate HasKind(browsers: seq<string>, kind: string)
  {
    exists m :: 0 <= m < |browsers| && Contains(browsers[m], kind)
  }

  /** A user listed in the output: an Android browser and an MSIE browser. */
  predicate Listed(u: User)
  {
    HasKind(u.browsers, "Android") && HasKind(u.browsers, "MSIE")
  }

  /** The record after a user's browsers are scanned: new targets appended once. */
  function AddBrowsers(seen: seq<string>, browsers: seq<string>): seq<string>
    decreases |browsers|
  {
    if |browsers| == 0 then seen
    else
      var acc := AddBrowsers(seen, browsers[..|browsers| - 1]);
      var b := browsers[|browsers| - 1];
      if IsTarget(b) && b !in acc then acc + [b] else acc
  }

  /** The record after the given users, in order. */
  function Browsers(users: seq<User>): seq<string>
    decreases |users|
  {
    if |users| == 0 then []
    else AddBrowsers(Browsers(users[..|users| - 1]), users[|users| - 1].browsers)
  }

  /** The users that decoded, in file order; their positions are the printed indices. */
  function Decoded(lines: seq<Option<User>>): seq<User>
    decreases |lines|
  {
    if |lines| == 0 then []
    else Decoded(lines[..|lines| - 1]) + (if lines[|lines| - 1].Some? then [lines[|lines| - 1].value] else [])
  }

  /** The line printed for the user with index i. */
  function Line(i: nat, u: User): string
  {
    "[" + Itoa(i) + "] " + u.name + " <" + ReplaceFirst(u.email, "@", " [at] ") + ">"
  }

  /** The user lines, numbered by position among decoded users. */
  function Listing(users: seq<User>): seq<string>
    decreases |users|
  {
    if |users| == 0 then []
    else
      var front := users[..|users| - 1];
      Listing(front) + (if Listed(users[|users| - 1]) then [Line(|front|, users[|users| - 1])] else [])
  }

  function Footer(total: nat): string
  {
    "\nTotal unique browsers " + Itoa(total)
  }

  /** Everything FastSearch prints for these lines. */
  function Report(lines: seq<Option<User>>): seq<string>
  {
    ["found users:"] + Listing(Decoded(lines)) + [Footer(|Browsers(Decoded(lines))|)]
  }

  // ---------------------------------------------------------------------
  // The scan

  /** contains: whether str occurs in s. */
  method SliceContains(s: seq<string>, str: string) returns (found: bool)
    ensures found <==> str in s
  {
    for k := 0 to |s|
      invariant str !in s[..k]
    {
      if s[k] == str {
        return true;
      }
    }
    assert s[..|s|] == s;
    return false;
  }

  /** The browser loop for one user: records new target browsers and notes which kinds occur. */
  method ScanBrowsers(seen: seq<string>, userBrowsers: seq<string>)
    returns (browsers: seq<string>, isAndroid: bool, isMSIE: bool)
    ensures browsers == AddBrowsers(seen, userBrowsers)
    ensures isAndroid <==> HasKind(userBrowsers, "Android")
    ensures isMSIE <==> HasKind(userBrowsers, "MSIE")
  {
    browsers, isAndroid, isMSIE := seen, false, false;
    for k := 0 to |userBrowsers|
      invariant browsers == AddBrowsers(seen, userBrowsers[..k])
      invariant isAndroid <==> HasKind(userBrowsers[..k], "Android")
      invariant isMSIE <==> HasKind(userBrowsers[..k], "MSIE")
    {
      assert userBrowsers[..k + 1][..k] == userBrowsers[..k];
      assert forall m :: 0 <= m < k ==> userBrowsers[..k + 1][m] == userBrowsers[..k][m];
      var browser := userBrowsers[k];
      var metAndroid := Contains(browser, "Android");
      if metAndroid {
        isAndroid := true;
      }
      var metMSIE := Contains(browser, "MSIE");
      if metMSIE {
        isMSIE := true;
      }
      if metMSIE || metAndroid {
        var present := SliceContains(browsers, browser);
        if !present {
          browsers := browsers + [browser];
        }
      }
    }
    assert userBrowsers[..|userBrowsers|] == userBrowsers;
  }

  /** FastSearch over already-decoded lines. */
  method Scan(lines: seq<Option<User>>) returns (out: seq<string>)
    ensures out == Report(lines)
  {
    out := ["found users:"];
    var i := 0;
    var browsers: seq<string> := [];
    for n := 0 to |lines|
      invariant i == |Decoded(lines[..n])|
      invariant browsers == Browsers(Decoded(lines[..n]))
      invariant out == ["found users:"] + Listing(Decoded(lines[..n]))
    {
      assert lines[..n + 1][..n] == lines[..n];
      if lines[n].None? {
        assert Decoded(lines[..n + 1]) == Decoded(lines[..n]);
        continue;
      }
      var user := lines[n].value;
      var isAndroid, isMSIE;
      browsers, isAndroid, isMSIE := ScanBrowsers(browsers, user.browsers);
      ghost var users := Decoded(lines[..n + 1]);
      assert users == Decoded(lines[..n]) + [user];
      assert users[..|users| - 1] == Decoded(lines[..n]) && users[|users| - 1] == user;
      assert Browsers(users) == browsers;
      if isAndroid && isMSIE {
        var email := ReplaceFirst(user.email, "@", " [at] ");
        out := out + ["[" + Itoa(i) + "] " + user.name + " <" + email + ">"];
      }
      i := i + 1;
    }
    assert lines[..|lines|] == lines;
    out := out + ["\nTotal unique browsers " + Itoa(|browsers|)];
  }

  // ---------------------------------------------------------------------
  // What the scan promises

  /** Scanning more browsers only appends, and keeps the record free of duplicates. */
  lemma {:induction false} AddBrowsersSpec(seen: seq<string>, browsers: seq<string>)
    ensures |seen| <= |AddBrowsers(seen, browsers)| && AddBrowsers(seen, browsers)[..|seen|] == seen
    ensures Distinct(seen) ==> Distinct(AddBrowsers(seen, browsers))
    ensures forall b :: b in AddBrowsers(seen, browsers) <==> b in seen || (b in browsers && IsTarget(b))
    decreases |browsers|
  {
    if |browsers| > 0 {
      var front := browsers[..|browsers| - 1];
      AddBrowsersSpec(seen, front);
      var acc := AddBrowsers(seen, front);
      assert browsers == front + [browsers[|browsers| - 1]];
      var r := AddBrowsers(seen, browsers);
      assert r[..|seen|] == acc[..|seen|];
    }
  }

  predicate Distinct(s: seq<string>)
  {
    forall i, j :: 0 <= i < j < |s| ==> s[i] != s[j]
  }

  /** The recorded browsers are distinct. */
  lemma {:induction false} BrowsersDistinct(users: seq<User>)
    ensures Distinct(Browsers(users))
    decreases |users|
  {
    if |users| > 0 {
      BrowsersDistinct(users[..|users| - 1]);
      AddBrowsersSpec(Browsers(users[..|users| - 1]), users[|users| - 1].browsers);
    }
  }

  /** A browser is recorded exactly when it is a target browser of some decoded user. */
  lemma {:induction false} BrowsersExactly(users: seq<User>, b: string)
    ensures b in Browsers(users) <==> IsTarget(b) && exists j :: 0 <= j < |users| && b in users[j].browsers
    decreases |users|
  {
    if |users| > 0 {
      var front := users[..|users| - 1];
      BrowsersExactly(front, b);
      AddBrowsersSpec(Browsers(front), users[|users| - 1].browsers);
      if b in Browsers(front) {
        var j :| 0 <= j < |front| && b in front[j].browsers;
        assert users[j] == front[j];
      }
      if exists j :: 0 <= j < |users| && b in users[j].browsers {
        var j :| 0 <= j < |users| && b in users[j].browsers;
        if j < |front| {
          assert front[j] == users[j];
        }
      }
    }
  }

  /** The indices of the listed users, in order. */
  function ListedIndices(users: seq<User>): seq<nat>
    decreases |users|
  {
    if |users| == 0 then []
    else
      var front := users[..|users| - 1];
      ListedIndices(front) + (if Listed(users[|users| - 1]) then [|front|] else [])
  }

  /** The k-th user line belongs to the k-th listed user, and a user is listed iff they have both kinds. */
  lemma {:induction false} ListingSpec(users: seq<User>)
    ensures |Listing(users)| == |ListedIndices(users)|
    ensures forall k :: 0 <= k < |ListedIndices(users)| ==>
              ListedIndices(users)[k] < |users| &&
              Listing(users)[k] == Line(ListedIndices(users)[k], users[ListedIndices(users)[k]])
    ensures forall j :: j in ListedIndices(users) <==> 0 <= j < |users| && Listed(users[j])
    decreases |users|
  {
    if |users| > 0 {
      var front, last := users[..|users| - 1], users[|users| - 1];
      ListingSpec(front);
      var lines, idx := Listing(front), ListedIndices(front);
      assert forall j :: 0 <= j < |front| ==> front[j] == users[j];
      var out, listed := Listing(users), ListedIndices(users);
      if Listed(last) {
        assert out == lines + [Line(|front|, last)];
        assert listed == idx + [|front|];
        forall k | 0 <= k < |listed|
          ensures listed[k] < |users| && out[k] == Line(listed[k], users[listed[k]])
        {
          if k < |idx| {
            assert listed[k] == idx[k] && out[k] == lines[k];
          }
        }
      } else {
        assert out == lines;
        assert listed == idx;
      }
      forall j
        ensures j in listed <==> 0 <= j < |users| && Listed(users[j])
      {
        assert j in listed <==> j in idx || (Listed(last) && j == |front|);
      }
    }
  }

  /** Lines that fail to decode change nothing: they are skipped without taking an index. */
  lemma {:induction false} UndecodableLinesSkipped(a: seq<Option<User>>, b: seq<Option<User>>)
    ensures Report(a + [None] + b) == Report(a + b)
  {
    var none: seq<Option<User>> := [None];
    DecodedAppend(a + none, b);
    DecodedAppend(a, none);
    DecodedAppend(a, b);
    assert Decoded(none) == [] by {
      assert none[..0] == [];
    }
    assert Decoded(a + none + b) == Decoded(a + b);
  }

  lemma {:induction false} DecodedAppend(a: seq<Option<User>>, b: seq<Option<User>>)
    ensures Decoded(a + b) == Decoded(a) + Decoded(b)
    decreases |b|
  {
    if |b| == 0 {
      assert a + b == a;
    } else {
      DecodedAppend(a, b[..|b| - 1]);
      assert (a + b)[..|a + b| - 1] == a + b[..|b| - 1];
    }
  }

  /** The header comes first; the footer reports how many distinct browsers were recorded. */
  lemma ReportShape(lines: seq<Option<User>>)
    ensures |Report(lines)| == |Listing(Decoded(lines))| + 2
    ensures Report(lines)[0] == "found users:"
    ensures Report(lines)[|Report(lines)| - 1] == Footer(|Browsers(Decoded(lines))|)
  {
  }

  /** Only the first `@` of the e-mail changes. */
  lemma EmailRewrite(email: string)
    ensures '@' !in email ==> ReplaceFirst(email, "@", " [at] ") == email
    ensures forall k :: 0 <= k < |email| && email[k] == '@' && '@' !in email[..k] ==>
              ReplaceFirst(email, "@", " [at] ") == email[..k] + " [at] " + email[k + 1..]
  {
    ReplaceFirstChar(email, '@', " [at] ");
  }
}
