/** The form validators of the admin and storefront pages: required fields,
    numeric ranges, uploaded-image checks, Vietnamese phone numbers and e-mail
    addresses. JavaScript numbers are modelled as `real` (NaN is not modelled). */
module ValidationUtil {
  import opened Common

  // ---------------------------------------------------------------- isRequired

  /** The value of a form field: `undefined`, `null`, a string or a number. */
  datatype FieldValue = Undefined | Null | Text(text: string) | Number(number: real)

  /** A field is filled in when it holds a number (zero included) or a string
      with at least one non-whitespace character. */
  function IsRequired(v: FieldValue): (r: bool)
    ensures (v.Undefined? || v.Null?) ==> !r
    ensures v.Text? ==> (r <==> HasNonWhitespace(v.text))
    ensures v.Number? ==> r
  {
    match v
    case Undefined => false
    case Null => false
    case Text(s) => |Trim(s)| > 0
    case Number(_) => true
  }

  // ---------------------------------------------------------------- isInRange, isPositive

  function IsInRange(value: real, min: real, max: real): bool {
    value >= min && value <= max
  }

  /** Both ends of the range are accepted, every value between them is, and
      nothing outside it. */
  lemma RangeIsInclusive(min: real, max: real, value: real)
    requires min <= max
    ensures IsInRange(min, min, max) && IsInRange(max, min, max)
    ensures min <= value <= max ==> IsInRange(value, min, max)
    ensures value < min || value > max ==> !IsInRange(value, min, max)
  {
  }

  function IsPositive(value: real): bool {
    value > 0.0
  }

  /** Positivity is strict: zero and every negative value are refused,
      every value above zero is accepted. */
  lemma ZeroIsNotPositive(value: real)
    ensures !IsPositive(0.0)
    ensures value <= 0.0 ==> !IsPositive(value)
    ensures value > 0.0 ==> IsPositive(value)
  {
  }

  // ---------------------------------------------------------------- isValidImage

  const MaxFileSize: int := 5 * 1024 * 1024
  const AllowedImageTypes: seq<string> := ["image/jpeg", "image/jpg", "image/png", "image/webp"]
  const ImageTypeError: string := "Chỉ chấp nhận file ảnh (JPG, PNG, WebP)"
  const ImageSizeError: string := "Kích thước file không được vượt quá 5MB"

  /** What the validator sees of a `File`: its MIME type and its size in bytes. */
  datatype ImageFile = ImageFile(mimeType: string, size: int)

  datatype ImageCheck = ImageCheck(valid: bool, error: Option<string>)

  /** The type is checked before the size: a file of the wrong type is
      reported as such whatever its size, and a file of exactly 5 MiB passes. */
  function IsValidImage(file: ImageFile): (r: ImageCheck)
    ensures r.valid <==> file.mimeType in AllowedImageTypes && file.size <= 5242880
    ensures r.valid <==> r.error.None?
    ensures file.mimeType !in AllowedImageTypes ==> r.error == Some(ImageTypeError)
    ensures file.mimeType in AllowedImageTypes && file.size > 5242880 ==> r.error == Some(ImageSizeError)
  {
    if file.mimeType !in AllowedImageTypes then ImageCheck(false, Some(ImageTypeError))
    else if file.size > MaxFileSize then ImageCheck(false, Some(ImageSizeError))
    else ImageCheck(true, None)
  }

  // ---------------------------------------------------------------- whitespace removal

  /** `s.replace(/\s+/g, '')`: the non-whitespace characters of `s`, in order. */
  function RemoveWhitespace(s: string): (r: string)
    ensures |r| <= |s|
  {
    if s == [] then []
    else if IsWhitespace(s[0]) then RemoveWhitespace(s[1..])
    else [s[0]] + RemoveWhitespace(s[1..])
  }

  /** The result holds no whitespace, and every other character of `s`. */
  lemma {:induction false} RemoveWhitespaceChars(s: string)
    ensures forall c :: c in RemoveWhitespace(s) ==> !IsWhitespace(c) && c in s
    ensures forall c :: c in s && !IsWhitespace(c) ==> c in RemoveWhitespace(s)
  {
    if s != [] {
      RemoveWhitespaceChars(s[1..]);
      assert forall c :: c in s ==> c == s[0] || c in s[1..];
    }
  }

  /** Removing whitespace from a string that has none changes nothing, so
      removing it twice is removing it once. */
  lemma RemoveWhitespaceIdempotent(s: string)
    ensures RemoveWhitespace(RemoveWhitespace(s)) == RemoveWhitespace(s)
  {
    RemoveWhitespaceChars(s);
    NoWhitespaceUnchanged(RemoveWhitespace(s));
  }

  lemma {:induction false} NoWhitespaceUnchanged(s: string)
    requires forall c :: c in s ==> !IsWhitespace(c)
    ensures RemoveWhitespace(s) == s
  {
    if s != [] {
      assert s[0] in s;
      NoWhitespaceUnchanged(s[1..]);
    }
  }

  // ---------------------------------------------------------------- isValidPhone

  predicate IsDigit(c: char) {
    '0' <= c <= '9'
  }

  /** The network prefix digits the pattern `(3|5|7|8|9)` admits. */
  predicate IsNetworkDigit(c: char) {
    c == '3' || c == '5' || c == '7' || c == '8' || c == '9'
  }

  predicate AllDigits(s: string) {
    forall i :: 0 <= i < |s| ==> IsDigit(s[i])
  }

  /** The subscriber part: a network digit followed by exactly eight digits. */
  predicate Subscriber(t: string) {
    |t| == 9 && IsNetworkDigit(t[0]) && AllDigits(t[1..])
  }

  /** `/^(0|\+84)(3|5|7|8|9)[0-9]{8}$/`, tried as a regular-expression
      engine does: the alternatives of the prefix from left to right, then the
      rest of the pattern. */
  function MatchPhone(t: string): bool {
    (StartsWith(t, "0") && Subscriber(t[1..])) || (StartsWith(t, "+84") && Subscriber(t[3..]))
  }

  /** `isValidPhone`: the pattern, applied once all whitespace is removed. */
  predicate IsValidPhone(phone: string) {
    MatchPhone(RemoveWhitespace(phone))
  }

  /** A phone number is valid when, once all whitespace is removed, it is a
      ten-character number starting with 0 or a twelve-character number
      starting with +84, in both cases followed by a network digit and
      eight more digits. */
  lemma PhoneShape(phone: string, t: string)
    requires t == RemoveWhitespace(phone)
    ensures IsValidPhone(phone) <==> (
      || (|t| == 10 && t[0] == '0' && IsNetworkDigit(t[1]) && AllDigits(t[2..]))
      || (|t| == 12 && t[0] == '+' && t[1] == '8' && t[2] == '4' && IsNetworkDigit(t[3]) && AllDigits(t[4..])))
  {
    assert StartsWith(t, "0") <==> |t| >= 1 && t[0] == '0';
    assert StartsWith(t, "+84") <==> |t| >= 3 && t[0] == '+' && t[1] == '8' && t[2] == '4';
    assert |t| >= 2 ==> t[1..][1..] == t[2..];
    assert |t| >= 4 ==> t[3..][1..] == t[4..];
  }

  /** Whitespace anywhere in the number is ignored. */
  lemma PhoneIgnoresWhitespace(a: string, w: string, b: string)
    requires forall i :: 0 <= i < |w| ==> IsWhitespace(w[i])
    ensures IsValidPhone(a + w + b) == IsValidPhone(a + b)
  {
    RemoveWhitespaceConcat(a + w, b);
    RemoveWhitespaceConcat(a, w);
    RemoveWhitespaceConcat(a, b);
    AllWhitespaceRemoved(w);
    assert RemoveWhitespace(a + w + b) == RemoveWhitespace(a + b);
  }

  lemma {:induction false} AllWhitespaceRemoved(w: string)
    requires forall i :: 0 <= i < |w| ==> IsWhitespace(w[i])
    ensures RemoveWhitespace(w) == []
  {
    if w != [] {
      AllWhitespaceRemoved(w[1..]);
    }
  }

  lemma {:induction false} RemoveWhitespaceConcat(a: string, b: string)
    ensures RemoveWhitespace(a + b) == RemoveWhitespace(a) + RemoveWhitespace(b)
  {
    if a == [] {
      assert a + b == b;
    } else {
      assert (a + b)[1..] == a[1..] + b;
      RemoveWhitespaceConcat(a[1..], b);
    }
  }

  // ---------------------------------------------------------------- isValidEmail

  /** A non-empty run of characters that are neither whitespace nor '@':
      `[^\s@]+`. */
  predicate Part(s: string) {
    |s| > 0 && forall i :: 0 <= i < |s| ==> !IsWhitespace(s[i]) && s[i] != '@'
  }

  /** The language of `/^[^\s@]+@[^\s@]+\.[^\s@]+$/`. */
  ghost predicate EmailPattern(e: string) {
    exists a, b, c :: Part(a) && Part(b) && Part(c) && e == a + "@" + b + "." + c
  }

  function CountChar(s: string, c: char): nat {
    if s == [] then 0 else (if s[0] == c then 1 else 0) + CountChar(s[1..], c)
  }

  function IndexOf(s: string, c: char): (r: nat)
    ensures r <= |s|
    ensures r < |s| ==> s[r] == c
    ensures forall i :: 0 <= i < r ==> s[i] != c
  {
    if s == [] then 0 else if s[0] == c then 0 else 1 + IndexOf(s[1..], c)
  }

  /** The check stated field by field: no whitespace anywhere, exactly one
      '@', a non-empty local part, and a domain holding a '.' that is neither
      its first nor its last character. */
  function IsValidEmail(e: string): (r: bool)
  {
    var at := IndexOf(e, '@');
    var domain := if at < |e| then e[at + 1..] else [];
    && (forall i :: 0 <= i < |e| ==> !IsWhitespace(e[i]))
    && CountChar(e, '@') == 1
    && at > 0
    && exists j :: 0 < j < |domain| - 1 && domain[j] == '.'
  }

  lemma {:induction false} CountCharZero(s: string, c: char)
    ensures CountChar(s, c) == 0 <==> forall i :: 0 <= i < |s| ==> s[i] != c
  {
    if s != [] {
      CountCharZero(s[1..], c);
      assert forall i :: 1 <= i < |s| ==> s[i] == s[1..][i - 1];
    }
  }

  lemma {:induction false} CountCharConcat(a: string, b: string, c: char)
    ensures CountChar(a + b, c) == CountChar(a, c) + CountChar(b, c)
  {
    if a == [] {
      assert a + b == b;
    } else {
      assert (a + b)[1..] == a[1..] + b;
      CountCharConcat(a[1..], b, c);
    }
  }

  /** The field-by-field check accepts exactly the strings the regular
      expression matches. */
  lemma EmailCheckMatchesPattern(e: string)
    ensures IsValidEmail(e) <==> EmailPattern(e)
  {
    if IsValidEmail(e) {
      EmailCheckSound(e);
    }
    if EmailPattern(e) {
      var a, b, c :| Part(a) && Part(b) && Part(c) && e == a + "@" + b + "." + c;
      EmailCheckComplete(e, a, b, c);
    }
  }

  lemma EmailCheckSound(e: string)
    requires IsValidEmail(e)
    ensures EmailPattern(e)
  {
    var at := IndexOf(e, '@');
    var domain := e[at + 1..];
    var j :| 0 < j < |domain| - 1 && domain[j] == '.';
    var a, b, c := e[..at], domain[..j], domain[j + 1..];
    assert e == a + "@" + b + "." + c;
    CountAtSplit(a, b, c);
    CountCharZero(b, '@');
    CountCharZero(c, '@');
    assert Part(a) && Part(b) && Part(c);
  }

  /** The number of '@' in `a@b.c` is one more than in `a`, `b` and `c`. */
  lemma CountAtSplit(a: string, b: string, c: string)
    ensures CountChar(a + "@" + b + "." + c, '@') == CountChar(a, '@') + 1 + CountChar(b, '@') + CountChar(c, '@')
  {
    CountCharConcat(a + "@" + b + ".", c, '@');
    CountCharConcat(a + "@" + b, ".", '@');
    CountCharConcat(a + "@", b, '@');
    CountCharConcat(a, "@", '@');
  }

  lemma EmailCheckComplete(e: string, a: string, b: string, c: string)
    requires Part(a) && Part(b) && Part(c) && e == a + "@" + b + "." + c
    ensures IsValidEmail(e)
  {
    CountCharZero(a, '@');
    CountCharZero(b, '@');
    CountCharZero(c, '@');
    CountAtSplit(a, b, c);
    var at := IndexOf(e, '@');
    assert e[|a|] == '@';
    forall i | 0 <= i < |a| ensures e[i] != '@' {
      assert e[i] == a[i];
    }
    assert at == |a|;
    var domain := e[at + 1..];
    assert domain == b + "." + c;
    assert domain[|b|] == '.';
    forall i | 0 <= i < |e| ensures !IsWhitespace(e[i]) {
      if i < |a| {
        assert e[i] == a[i];
      } else if i > |a| && i < |a| + 1 + |b| {
        assert e[i] == b[i - |a| - 1];
      } else if i > |a| + 1 + |b| {
        assert e[i] == c[i - |a| - 2 - |b|];
      }
    }
  }
}
