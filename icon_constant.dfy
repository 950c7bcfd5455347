/** The category icon table and the lookup that picks an icon for a category
    name: the name is lower-cased, every run of whitespace becomes one `_`, and
    the first key of the table (in declaration order) that occurs in it wins. */
module IconConstant {
  import opened Common

  const PhoneIcon := "📱"
  const LaptopIcon := "💻"
  const WatchIcon := "⌚"
  const HeadphoneIcon := "🎧"
  const CameraIcon := "📷"
  const SpeakerIcon := "🔊"
  const KeyboardIcon := "⌨️"
  const MouseIcon := "🖱️"
  const MonitorIcon := "🖥️"
  const DefaultIcon := "🏷️"

  /** The icon table as `Object.entries` lists it: the keys in the order they
      are declared, ending with `default`. */
  const CategoryIcons: seq<(string, string)> := [
    ("phone", PhoneIcon), ("điện_thoại", PhoneIcon), ("mobile", PhoneIcon),
    ("laptop", LaptopIcon), ("máy_tính", LaptopIcon), ("computer", LaptopIcon),
    ("watch", WatchIcon), ("đồng_hồ", WatchIcon),
    ("headphone", HeadphoneIcon), ("tai_nghe", HeadphoneIcon), ("earphone", HeadphoneIcon),
    ("tablet", PhoneIcon), ("máy_tính_bảng", PhoneIcon),
    ("camera", CameraIcon), ("máy_ảnh", CameraIcon),
    ("speaker", SpeakerIcon), ("loa", SpeakerIcon),
    ("keyboard", KeyboardIcon), ("bàn_phím", KeyboardIcon),
    ("mouse", MouseIcon), ("chuột", MouseIcon),
    ("monitor", MonitorIcon), ("màn_hình", MonitorIcon),
    ("default", DefaultIcon)
  ]

  /** Replaces every maximal run of whitespace by a single `_`. */
  function Underscore(s: string): (r: string)
    ensures |r| <= |s|
    ensures forall i :: 0 <= i < |r| ==> !IsWhitespace(r[i])
    decreases |s|
  {
    if s == [] then []
    else if IsWhitespace(s[0]) then "_" + Underscore(TrimStart(s[1..]))
    else [s[0]] + Underscore(s[1..])
  }

  /** The normal form the lookup searches: lower case, whitespace runs as `_`. */
  function Normalize(name: string): string {
    Underscore(Lower(name))
  }

  /** The position of the first entry whose key occurs in `n`, if any. */
  function FirstMatch(entries: seq<(string, string)>, n: string): (r: Option<nat>)
    ensures r.Some? ==> r.value < |entries| && Contains(n, entries[r.value].0)
    ensures r.Some? ==> forall j :: 0 <= j < r.value ==> !Contains(n, entries[j].0)
    ensures r.None? ==> forall j :: 0 <= j < |entries| ==> !Contains(n, entries[j].0)
  {
    if entries == [] then None
    else if Contains(n, entries[0].0) then Some(0)
    else
      match FirstMatch(entries[1..], n)
      case None => None
      case Some(k) => Some(k + 1)
  }

  /** The icon for a category name: the icon of the first key that occurs in
      the normalised name, or the default icon when none does. */
  function GetCategoryIcon(categoryName: string): (icon: string)
    ensures exists i :: 0 <= i < |CategoryIcons| && icon == CategoryIcons[i].1
    ensures FirstMatch(CategoryIcons, Normalize(categoryName)).None? ==> icon == DefaultIcon
  {
    match FirstMatch(CategoryIcons, Normalize(categoryName))
    case Some(i) => CategoryIcons[i].1
    case None => assert CategoryIcons[23].1 == DefaultIcon; DefaultIcon
  }

  /** The icon is the one of the first key, in table order, occurring in the
      normalised name; no key before it occurs there. */
  lemma {:induction false} IconIsFirstMatchingKey(categoryName: string)
    ensures var n := Normalize(categoryName);
            var icon := GetCategoryIcon(categoryName);
            || (exists i :: 0 <= i < |CategoryIcons| && Contains(n, CategoryIcons[i].0)
                  && icon == CategoryIcons[i].1
                  && forall j :: 0 <= j < i ==> !Contains(n, CategoryIcons[j].0))
            || ((forall j :: 0 <= j < |CategoryIcons| ==> !Contains(n, CategoryIcons[j].0))
                  && icon == DefaultIcon)
  {
    var n := Normalize(categoryName);
    match FirstMatch(CategoryIcons, n)
    case Some(i) =>
      assert Contains(n, CategoryIcons[i].0);
    case None =>
  }

  /** Three keys contain an earlier key: "phone" occurs in "headphone" and
      in "earphone", "máy_tính" in "máy_tính_bảng". */
  lemma {:induction false} KeysContainEarlierKeys()
    ensures Contains(CategoryIcons[8].0, CategoryIcons[0].0)
    ensures Contains(CategoryIcons[10].0, CategoryIcons[0].0)
    ensures Contains(CategoryIcons[12].0, CategoryIcons[4].0)
  {
    PhoneInHeadphone();
    PhoneInEarphone();
    assert StartsWith("máy_tính_bảng", "máy_tính");
  }

  lemma {:induction false} PhoneInHeadphone()
    ensures Contains("headphone", "phone")
  {
    var phone := "phone";
    assert StartsWith("headphone"[4..], phone);
    assert Contains("headphone"[4..], phone);
    assert Contains("headphone"[3..], phone);
    assert Contains("headphone"[2..], phone);
    assert Contains("headphone"[1..], phone);
  }

  lemma {:induction false} PhoneInEarphone()
    ensures Contains("earphone", "phone")
  {
    var phone := "phone";
    assert StartsWith("earphone"[3..], phone);
    assert Contains("earphone"[3..], phone);
    assert Contains("earphone"[2..], phone);
    assert Contains("earphone"[1..], phone);
  }

  /** Any name whose normal form contains "headphone" or "earphone" gets the
      phone icon, not the headphone icon those keys map to. */
  lemma PhoneShadowsHeadphone(categoryName: string)
    requires Contains(Normalize(categoryName), "headphone") || Contains(Normalize(categoryName), "earphone")
    ensures GetCategoryIcon(categoryName) == PhoneIcon
  {
    var n := Normalize(categoryName);
    if Contains(n, "headphone") {
      PhoneInHeadphone();
      ContainsTransitive(n, "headphone", "phone");
    } else {
      PhoneInEarphone();
      ContainsTransitive(n, "earphone", "phone");
    }
    assert CategoryIcons[0] == ("phone", PhoneIcon);
    assert FirstMatch(CategoryIcons, n) == Some(0);
  }

  /** The keys "headphone", "earphone" and "máy_tính_bảng" never decide the
      icon: whenever one of them occurs, an earlier key occurs too. */
  lemma {:induction false} ShadowedKeysNeverChosen(categoryName: string)
    ensures var m := FirstMatch(CategoryIcons, Normalize(categoryName));
            m.Some? ==> m.value != 8 && m.value != 10 && m.value != 12
  {
    var n := Normalize(categoryName);
    var m := FirstMatch(CategoryIcons, n);
    KeysContainEarlierKeys();
    if m.Some? && m.value in {8, 10, 12} {
      var k := m.value;
      var earlier := if k == 12 then 4 else 0;
      ContainsTransitive(n, CategoryIcons[k].0, CategoryIcons[earlier].0);
      assert false;
    }
  }

  predicate AllWhitespace(w: string) {
    forall i :: 0 <= i < |w| ==> IsWhitespace(w[i])
  }

  lemma {:induction false} TrimStartSkipsWhitespace(w: string, b: string)
    requires AllWhitespace(w)
    ensures TrimStart(w + b) == TrimStart(b)
    decreases |w|
  {
    if w != [] {
      assert (w + b)[1..] == w[1..] + b;
      TrimStartSkipsWhitespace(w[1..], b);
    } else {
      assert w + b == b;
    }
  }

  lemma {:induction false} TrimStartConcat(x: string, y: string)
    requires HasNonWhitespace(x)
    ensures TrimStart(x + y) == TrimStart(x) + y
    decreases |x|
  {
    if IsWhitespace(x[0]) {
      assert (x + y)[1..] == x[1..] + y;
      var k :| 0 <= k < |x| && !IsWhitespace(x[k]);
      assert x[1..][k - 1] == x[k];
      TrimStartConcat(x[1..], y);
    }
  }

  lemma UnderscoreCons(c: char, s: string)
    ensures !IsWhitespace(c) ==> Underscore([c] + s) == [c] + Underscore(s)
    ensures IsWhitespace(c) ==> Underscore([c] + s) == "_" + Underscore(TrimStart(s))
  {
    assert ([c] + s)[0] == c && ([c] + s)[1..] == s;
  }

  /** How long a whitespace run is, and which whitespace characters make it
      up, does not change the normal form. */
  lemma {:induction false} UnderscoreRunLength(a: string, w1: string, w2: string, b: string)
    requires w1 != [] && w2 != [] && AllWhitespace(w1) && AllWhitespace(w2)
    ensures Underscore(a + w1 + b) == Underscore(a + w2 + b)
    decreases |a|
  {
    if a == [] {
      RunsAtFront(a, w1, w2, b);
    } else if !IsWhitespace(a[0]) {
      UnderscoreRunLength(a[1..], w1, w2, b);
      RunAfterLetter(a, w1, w2, b);
    } else if HasNonWhitespace(a[1..]) {
      UnderscoreRunLength(TrimStart(a[1..]), w1, w2, b);
      RunAfterSpaceAndText(a, w1, w2, b);
    } else {
      RunAfterSpaces(a, w1, w2, b);
    }
  }

  lemma RunsAtFront(a: string, w1: string, w2: string, b: string)
    requires a == [] && w1 != [] && w2 != [] && AllWhitespace(w1) && AllWhitespace(w2)
    ensures Underscore(a + w1 + b) == Underscore(a + w2 + b)
  {
    assert a + w1 + b == w1 + b;
    assert a + w2 + b == w2 + b;
    RunAtFront(w1, b);
    RunAtFront(w2, b);
  }

  lemma RunAfterLetter(a: string, w1: string, w2: string, b: string)
    requires a != [] && !IsWhitespace(a[0])
    requires Underscore(a[1..] + w1 + b) == Underscore(a[1..] + w2 + b)
    ensures Underscore(a + w1 + b) == Underscore(a + w2 + b)
  {
    LetterBeforeRun(a, w1, b);
    LetterBeforeRun(a, w2, b);
  }

  lemma RunAfterSpaceAndText(a: string, w1: string, w2: string, b: string)
    requires a != [] && IsWhitespace(a[0]) && HasNonWhitespace(a[1..])
    requires Underscore(TrimStart(a[1..]) + w1 + b) == Underscore(TrimStart(a[1..]) + w2 + b)
    ensures Underscore(a + w1 + b) == Underscore(a + w2 + b)
  {
    SpaceBeforeText(a, w1, b);
    SpaceBeforeText(a, w2, b);
  }

  lemma RunAfterSpaces(a: string, w1: string, w2: string, b: string)
    requires a != [] && IsWhitespace(a[0]) && !HasNonWhitespace(a[1..])
    requires AllWhitespace(w1) && AllWhitespace(w2)
    ensures Underscore(a + w1 + b) == Underscore(a + w2 + b)
  {
    WhitespaceTail(a, w1);
    WhitespaceTail(a, w2);
    SpaceBeforeRun(a, w1, b);
    SpaceBeforeRun(a, w2, b);
  }

  lemma LetterBeforeRun(a: string, w: string, b: string)
    requires a != [] && !IsWhitespace(a[0])
    ensures Underscore(a + w + b) == [a[0]] + Underscore(a[1..] + w + b)
  {
    assert a + w + b == [a[0]] + (a[1..] + w + b);
    UnderscoreCons(a[0], a[1..] + w + b);
  }

  lemma SpaceBeforeText(a: string, w: string, b: string)
    requires a != [] && IsWhitespace(a[0]) && HasNonWhitespace(a[1..])
    ensures Underscore(a + w + b) == "_" + Underscore(TrimStart(a[1..]) + w + b)
  {
    var u := a[1..] + (w + b);
    calc {
      Underscore(a + w + b);
      { assert a + w + b == [a[0]] + u; }
      Underscore([a[0]] + u);
      { UnderscoreCons(a[0], u); }
      "_" + Underscore(TrimStart(u));
      { TrimStartConcat(a[1..], w + b);
        assert TrimStart(a[1..]) + (w + b) == TrimStart(a[1..]) + w + b; }
      "_" + Underscore(TrimStart(a[1..]) + w + b);
    }
  }

  lemma WhitespaceTail(a: string, w: string)
    requires a != [] && !HasNonWhitespace(a[1..]) && AllWhitespace(w)
    ensures AllWhitespace(a[1..] + w)
  {
    var run := a[1..] + w;
    forall i | 0 <= i < |run| ensures IsWhitespace(run[i]) {
      if i < |a| - 1 {
        assert run[i] == a[1..][i];
      } else {
        assert run[i] == w[i - (|a| - 1)];
      }
    }
  }

  lemma SpaceBeforeRun(a: string, w: string, b: string)
    requires a != [] && IsWhitespace(a[0]) && AllWhitespace(a[1..] + w)
    ensures Underscore(a + w + b) == "_" + Underscore(TrimStart(b))
  {
    var run := a[1..] + w;
    var x := run + b;
    assert a + w + b == [a[0]] + x;
    UnderscoreCons(a[0], x);
    TrimStartSkipsWhitespace(run, b);
  }

  lemma RunAtFront(w: string, b: string)
    requires w != [] && AllWhitespace(w)
    ensures Underscore(w + b) == "_" + Underscore(TrimStart(b))
  {
    assert w + b == [w[0]] + (w[1..] + b);
    UnderscoreCons(w[0], w[1..] + b);
    TrimStartSkipsWhitespace(w[1..], b);
  }

  /** A name without whitespace is its own underscored form. */
  lemma {:induction false} UnderscoreKeepsPlainText(s: string)
    requires forall i :: 0 <= i < |s| ==> !IsWhitespace(s[i])
    ensures Underscore(s) == s
    decreases |s|
  {
    if s != [] {
      UnderscoreKeepsPlainText(s[1..]);
    }
  }

  /** A run of whitespace at the front, followed by text (or nothing),
      becomes one `_` in front of that text's form. */
  lemma RunBeforeText(w: string, b: string)
    requires w != [] && AllWhitespace(w)
    requires b == [] || !IsWhitespace(b[0])
    ensures Underscore(w + b) == "_" + Underscore(b)
  {
    RunAtFront(w, b);
  }

  /** A word, a whitespace run, then text that starts with a non-whitespace
      character (or nothing): the word stays as it is and the run becomes a
      single `_`. */
  lemma {:induction false} UnderscoreWordThenRun(a: string, w: string, b: string)
    requires forall i :: 0 <= i < |a| ==> !IsWhitespace(a[i])
    requires w != [] && AllWhitespace(w)
    requires b == [] || !IsWhitespace(b[0])
    ensures Underscore(a + w + b) == a + "_" + Underscore(b)
    decreases |a|
  {
    if a == [] {
      assert a + w + b == w + b;
      RunBeforeText(w, b);
    } else {
      LetterBeforeRun(a, w, b);
      UnderscoreWordThenRun(a[1..], w, b);
      assert a == [a[0]] + a[1..];
      assert [a[0]] + (a[1..] + "_" + Underscore(b)) == a + "_" + Underscore(b);
    }
  }

  /** The Vietnamese name of the tablet category normalises to the table's
      "máy_tính_bảng" key. */
  lemma NormalizeTabletName(name: string)
    requires name == "Máy tính bảng"
    ensures Normalize(name) == "máy_tính_bảng"
  {
    LowerTabletName(name);
    UnderscoreTabletName(Lower(name));
  }

  lemma LowerKeepsLowerCase(s: string)
    requires forall i :: 0 <= i < |s| ==> !('A' <= s[i] <= 'Z')
    ensures Lower(s) == s
  {
  }

  lemma LowerTabletName(name: string)
    requires name == "Máy tính bảng"
    ensures Lower(name) == "máy tính bảng"
  {
    var rest := name[1..];
    assert name == [name[0]] + rest;
    assert rest == "áy tính bảng";
    LowerKeepsLowerCase(rest);
  }

  lemma UnderscoreTabletName(s: string)
    requires s == "máy tính bảng"
    ensures Underscore(s) == "máy_tính_bảng"
  {
    TabletNameWords(s);
    UnderscoreThreeWords(s[..3], s[4..8], s[9..]);
  }

  lemma TabletNameWords(s: string)
    requires s == "máy tính bảng"
    ensures s == s[..3] + " " + (s[4..8] + " " + s[9..])
    ensures s[..3] + "_" + (s[4..8] + "_" + s[9..]) == "máy_tính_bảng"
    ensures forall i :: 0 <= i < |s[..3]| ==> !IsWhitespace(s[..3][i])
    ensures forall i :: 0 <= i < |s[4..8]| ==> !IsWhitespace(s[4..8][i])
    ensures forall i :: 0 <= i < |s[9..]| ==> !IsWhitespace(s[9..][i])
    ensures s[4..8] != [] && s[9..] != []
  {
    assert s[..3] == "máy" && s[4..8] == "tính" && s[9..] == "bảng";
  }

  /** Three words joined by single spaces become the words joined by `_`. */
  lemma UnderscoreThreeWords(a: string, b: string, c: string)
    requires forall i :: 0 <= i < |a| ==> !IsWhitespace(a[i])
    requires forall i :: 0 <= i < |b| ==> !IsWhitespace(b[i])
    requires forall i :: 0 <= i < |c| ==> !IsWhitespace(c[i])
    requires b != [] && c != []
    ensures Underscore(a + " " + (b + " " + c)) == a + "_" + (b + "_" + c)
  {
    assert AllWhitespace(" ");
    UnderscoreKeepsPlainText(c);
    UnderscoreWordThenRun(b, " ", c);
    UnderscoreWordThenRun(a, " ", b + " " + c);
  }

  /** A key holding a character the name lacks does not occur in it. */
  lemma AbsentCharRulesOut(n: string, key: string, c: char)
    requires c in key && c !in n
    ensures !Contains(n, key)
  {
    ContainsAt(n, key);
    var k :| 0 <= k < |key| && key[k] == c;
    forall i ensures !OccursAt(n, key, i) {
      if 0 <= i <= |n| - |key| {
        assert n[i + k] in n;
        assert n[i..i + |key|][k] == n[i + k];
      }
    }
  }

  /** The literal name "Máy tính bảng" gets the laptop icon. */
  lemma TabletNameGetsLaptopIcon(name: string)
    requires name == "Máy tính bảng"
    ensures GetCategoryIcon(name) == LaptopIcon
  {
    NormalizeTabletName(name);
    var n := Normalize(name);
    assert StartsWith(n, "máy_tính_bảng");
    TabletNameLetters(n);
    TabletNameMissesEarlierKeys(n);
    TabletGetsLaptopIcon(name);
  }

  /** The four keys ahead of "máy_tính" each hold a letter that "máy_tính_bảng" lacks. */
  lemma TabletNameMissesEarlierKeys(n: string)
    requires 'p' !in n && 'đ' !in n && 'o' !in n && 'l' !in n
    ensures forall j :: 0 <= j < 4 ==> !Contains(n, CategoryIcons[j].0)
  {
    LeadingKeys();
    KeyWithLetter(CategoryIcons[0].0, 'p');
    KeyWithLetter(CategoryIcons[1].0, 'đ');
    KeyWithLetter(CategoryIcons[2].0, 'o');
    KeyWithLetter(CategoryIcons[3].0, 'l');
    AbsentCharRulesOut(n, CategoryIcons[0].0, 'p');
    AbsentCharRulesOut(n, CategoryIcons[1].0, 'đ');
    AbsentCharRulesOut(n, CategoryIcons[2].0, 'o');
    AbsentCharRulesOut(n, CategoryIcons[3].0, 'l');
  }

  lemma LeadingKeys()
    ensures CategoryIcons[0].0 == "phone" && CategoryIcons[1].0 == "điện_thoại"
    ensures CategoryIcons[2].0 == "mobile" && CategoryIcons[3].0 == "laptop"
  { }

  lemma KeyWithLetter(key: string, c: char)
    requires key == "phone" || key == "điện_thoại" || key == "mobile" || key == "laptop"
    requires (c == 'p' && key == "phone") || (c == 'đ' && key == "điện_thoại")
          || (c == 'o' && key == "mobile") || (c == 'l' && key == "laptop")
    ensures c in key
  { }

  lemma TabletNameLetters(n: string)
    requires n == "máy_tính_bảng"
    ensures 'p' !in n && 'đ' !in n && 'o' !in n && 'l' !in n
  { }

  lemma LowerConcat(x: string, y: string)
    ensures Lower(x + y) == Lower(x) + Lower(y)
  {
    assert forall i :: 0 <= i < |x + y| ==> Lower(x + y)[i] == (Lower(x) + Lower(y))[i];
  }

  /** The icon does not depend on how long a whitespace run in the name is
      or which whitespace characters it is made of. */
  lemma IconIgnoresWhitespaceRuns(a: string, w1: string, w2: string, b: string)
    requires w1 != [] && w2 != [] && AllWhitespace(w1) && AllWhitespace(w2)
    ensures GetCategoryIcon(a + w1 + b) == GetCategoryIcon(a + w2 + b)
  {
    LowerConcat(a + w1, b);
    LowerConcat(a, w1);
    LowerConcat(a + w2, b);
    LowerConcat(a, w2);
    UnderscoreRunLength(Lower(a), Lower(w1), Lower(w2), Lower(b));
  }

  /** The icon does not depend on the case of ASCII letters in the name. */
  lemma IconIgnoresAsciiCase(s: string, t: string)
    requires |s| == |t| && forall i :: 0 <= i < |s| ==> LowerChar(s[i]) == LowerChar(t[i])
    ensures GetCategoryIcon(s) == GetCategoryIcon(t)
  {
    assert Lower(s) == Lower(t);
  }

  /** A tablet category named in Vietnamese ("máy tính bảng") gets the
      laptop icon, not the phone icon its own key maps to, unless a key
      before "máy_tính" occurs in the name. */
  lemma TabletGetsLaptopIcon(categoryName: string)
    requires Contains(Normalize(categoryName), "máy_tính_bảng")
    requires forall j :: 0 <= j < 4 ==> !Contains(Normalize(categoryName), CategoryIcons[j].0)
    ensures GetCategoryIcon(categoryName) == LaptopIcon
  {
    var n := Normalize(categoryName);
    assert CategoryIcons[4] == ("máy_tính", LaptopIcon);
    assert StartsWith("máy_tính_bảng", "máy_tính");
    ContainsTransitive(n, "máy_tính_bảng", "máy_tính");
    var m := FirstMatch(CategoryIcons, n);
    assert m.Some? && m.value == 4;
  }
}
