/**
 * What core/models.py derives for a new user: the branch read from the
 * roll-number style username, the library id, the wifi password, and the
 * credentials record the `post_save` receiver creates.
 *
 * `secrets.choice` is modelled by its results: the caller passes the chosen
 * positions in the alphabet.
 */
module Credentials {
  import opened Options

  /** The programmes a branch code may stand for. */
  const BranchCodeMap: map<string, string> := map[
    "BCE" := "B.Tech in Computer Science and Engineering (Core)",
    "BAI" := "B.Tech in Computer Science and Engineering (AI/ML)",
    "BCY" := "B.Tech in Computer Science and Engineering (Cyber Security)",
    "BHI" := "B.Tech in Computer Science and Engineering (Health Informatics)"
  ]

  /** Python `str.upper()` on one character, as far as it can yield an ASCII
      capital: a..z, the dotless i (U+0131, to `I`) and the long s (U+017F, to
      `S`). Every other character is kept; its real upper case is either
      itself, a non-ASCII character or more than one character, and none of
      those can complete a branch code. */
  function UpperChar(c: char): (u: char)
    ensures 'A' <= u <= 'Z' ==> c == u || 'a' <= c <= 'z' || c == '\U{131}' || c == '\U{17F}'
  {
    if 'a' <= c <= 'z' then (c as int - 32) as char
    else if c == '\U{131}' then 'I'
    else if c == '\U{17F}' then 'S'
    else c
  }

  /** `s.upper()` on a code candidate. */
  function Upper(s: string): (r: string)
    ensures |r| == |s| && forall i :: 0 <= i < |s| ==> r[i] == UpperChar(s[i])
  {
    seq(|s|, i requires 0 <= i < |s| => UpperChar(s[i]))
  }

  /** `extract_branch_from_username`: the code is the third to fifth character
      upper-cased, kept only when it names a programme; usernames shorter
      than five characters have neither. */
  function ExtractBranch(username: string): (r: (string, string))
    ensures |username| < 5 ==> r == ("", "")
    ensures r.0 == "" <==> r.1 == ""
    ensures r.1 != "" ==> |username| >= 5 && r.0 == Upper(username[2..5])
                           && r.0 in BranchCodeMap && BranchCodeMap[r.0] == r.1
    ensures |username| >= 5 && Upper(username[2..5]) in BranchCodeMap ==> r.1 != ""
  {
    if username == [] || |username| < 5 then ("", "")
    else
      var code := Upper(username[2..5]);
      var name := if code in BranchCodeMap then BranchCodeMap[code] else "";
      (if name != "" then code else "", name)
  }

  /** The branch does not depend on letter case, nor on anything outside the
      code's three positions. */
  lemma {:induction false} ExtractBranchCaseInsensitive(a: string, b: string)
    requires |a| >= 5 && |b| >= 5
    requires forall i :: 2 <= i < 5 ==> UpperChar(a[i]) == UpperChar(b[i])
    ensures ExtractBranch(a) == ExtractBranch(b)
  {
    assert Upper(a[2..5]) == Upper(b[2..5]) by {
      forall i | 0 <= i < 3 ensures Upper(a[2..5])[i] == Upper(b[2..5])[i] {
        assert a[2..5][i] == a[2 + i] && b[2..5][i] == b[2 + i];
      }
    }
  }

  /** Roll numbers of each programme, in either case, and one that is not. */
  lemma ExtractBranchExamples()
    ensures ExtractBranch("21BAI10001") == ("BAI", BranchCodeMap["BAI"])
    ensures ExtractBranch("21bce10001") == ("BCE", BranchCodeMap["BCE"])
    ensures ExtractBranch("21ba\U{131}0001") == ("BAI", BranchCodeMap["BAI"])
    ensures ExtractBranch("21XYZ10001") == ("", "")
    ensures ExtractBranch("21BA") == ("", "")
  {
    assert "21BAI10001"[2..5] == "BAI" && Upper("BAI") == "BAI";
    assert "21bce10001"[2..5] == "bce" && Upper("bce") == "BCE";
    assert "21ba\U{131}0001"[2..5] == "ba\U{131}" && Upper("ba\U{131}") == "BAI";
    assert "21XYZ10001"[2..5] == "XYZ" && Upper("XYZ") == "XYZ";
  }

  /** The decimal digits of `n`, most significant first, without leading
      zeros ("0" for zero). */
  function Digits(n: nat): (r: string)
    ensures 1 <= |r| && forall i :: 0 <= i < |r| ==> '0' <= r[i] <= '9'
    ensures n >= 10 ==> r[0] != '0'
    decreases n
  {
    if n < 10 then [('0' as int + n) as char]
    else Digits(n / 10) + [('0' as int + n % 10) as char]
  }

  /** The value of a string of decimal digits. */
  function DecimalValue(s: string): nat
    requires forall i :: 0 <= i < |s| ==> '0' <= s[i] <= '9'
  {
    if s == [] then 0
    else 10 * DecimalValue(s[..|s| - 1]) + (s[|s| - 1] as int - '0' as int)
  }

  /** `n` zeros. */
  function Zeros(n: nat): (r: string)
    ensures |r| == n && forall i :: 0 <= i < n ==> r[i] == '0'
  {
    seq(n, _ => '0')
  }

  /** Python's `{n:0wd}`: the sign, then zeros, then the digits, together at
      least `w` characters long. */
  function ZeroPadded(n: int, w: nat): (r: string)
  {
    var sign := if n < 0 then "-" else "";
    var digits := Digits(if n < 0 then -n else n);
    var width := |sign| + |digits|;
    sign + Zeros(if width < w then w - width else 0) + digits
  }

  /** `f"LIB{instance.id:05d}"`. */
  function LibraryId(id: int): (r: string)
    ensures |r| > 3 && r[..3] == "LIB"
  {
    "LIB" + ZeroPadded(id, 5)
  }

  lemma {:induction false} DecimalValueOfDigits(n: nat)
    ensures DecimalValue(Digits(n)) == n
    decreases n
  {
    var d := Digits(n);
    if n >= 10 {
      DecimalValueOfDigits(n / 10);
      assert d[..|d| - 1] == Digits(n / 10);
    }
  }

  /** Leading zeros do not change a decimal value. */
  lemma {:induction false} DecimalValueLeadingZeros(k: nat, s: string)
    requires forall i :: 0 <= i < |s| ==> '0' <= s[i] <= '9'
    ensures DecimalValue(Zeros(k) + s) == DecimalValue(s)
    decreases |s|
  {
    if s == [] {
      DecimalValueZeros(k);
      assert Zeros(k) + s == Zeros(k);
    } else {
      var t := Zeros(k) + s;
      assert t[..|t| - 1] == Zeros(k) + s[..|s| - 1];
      DecimalValueLeadingZeros(k, s[..|s| - 1]);
    }
  }

  lemma {:induction false} DecimalValueZeros(k: nat)
    ensures DecimalValue(Zeros(k)) == 0
  {
    if k > 0 {
      assert Zeros(k)[..k - 1] == Zeros(k - 1);
      DecimalValueZeros(k - 1);
    }
  }

  /** The number of zeros `{n:05d}` puts in front of the digits of `n >= 0`. */
  function PadFor(n: nat): nat {
    var k := |Digits(n)|;
    if k < 5 then 5 - k else 0
  }

  /** The library id of a database id is "LIB", the padding zeros, and the
      id's digits. */
  lemma LibraryIdShape(id: nat)
    ensures LibraryId(id) == "LIB" + (Zeros(PadFor(id)) + Digits(id))
  {
    var z, d := Zeros(PadFor(id)), Digits(id);
    assert ZeroPadded(id, 5) == "" + z + d;
    assert "" + z + d == z + d;
  }

  /** A library id of a database id (never negative) is "LIB" followed by
      digits that read back as the id. */
  lemma LibraryIdRoundTrip(id: nat)
    ensures var r := LibraryId(id);
      && (forall i :: 3 <= i < |r| ==> '0' <= r[i] <= '9')
      && DecimalValue(r[3..]) == id
  {
    LibraryIdShape(id);
    var z, d := Zeros(PadFor(id)), Digits(id);
    var t := z + d;
    assert forall i :: 0 <= i < |t| ==> '0' <= t[i] <= '9' by {
      forall i | 0 <= i < |t| ensures '0' <= t[i] <= '9' {
        if i >= |z| { assert t[i] == d[i - |z|]; }
      }
    }
    var r := LibraryId(id);
    assert r[3..] == t;
    DecimalValueOfDigits(id);
    DecimalValueLeadingZeros(|z|, d);
  }

  /** A library id has at least five characters after "LIB", and exactly five
      for ids below 100000. */
  lemma LibraryIdLength(id: nat)
    ensures |LibraryId(id)| >= 8
    ensures id < 100000 ==> |LibraryId(id)| == 8
  {
    LibraryIdShape(id);
    if id < 100000 {
      DigitsLength(id, 5);
    }
  }

  /** 10 to the power `k`. */
  function Pow10(k: nat): (p: nat)
    ensures p >= 1
  {
    if k == 0 then 1 else 10 * Pow10(k - 1)
  }

  lemma {:induction false} DigitsLength(n: nat, k: nat)
    requires 1 <= k && n < Pow10(k)
    ensures |Digits(n)| <= k
    decreases k
  {
    if n >= 10 {
      assert k >= 2;
      DigitsLength(n / 10, k - 1);
    }
  }

  /** Padding to five digits, and Python's placement of the sign before the
      zeros. */
  lemma LibraryIdExamples()
    ensures LibraryId(7) == "LIB00007"
    ensures LibraryId(-5) == "LIB-0005"
  {
    assert Digits(7) == "7" && Digits(5) == "5";
    assert Zeros(4) == "0000" && Zeros(3) == "000";
    assert ZeroPadded(7, 5) == "" + "0000" + "7";
    assert ZeroPadded(-5, 5) == "-" + "000" + "5";
  }

  /** Different users get different library ids. */
  lemma LibraryIdInjective(a: nat, b: nat)
    requires LibraryId(a) == LibraryId(b)
    ensures a == b
  {
    LibraryIdRoundTrip(a);
    LibraryIdRoundTrip(b);
  }

  /** The `n` consecutive characters from `first` on. */
  function Run(first: char, n: nat): (r: string)
    requires first as int + n <= 0xD800
    ensures |r| == n && forall i :: 0 <= i < n ==> r[i] as int == first as int + i
  {
    seq(n, i requires 0 <= i < n => (first as int + i) as char)
  }

  /** The punctuation the password may contain. */
  const Punctuation: string := "!@#$%^&*"

  /** `string.ascii_letters + string.digits + "!@#$%^&*"`. */
  const PasswordAlphabet: string := Run('a', 26) + Run('A', 26) + Run('0', 10) + Punctuation

  /** Membership in the alphabet, by character class. */
  predicate IsPasswordChar(c: char) {
    'a' <= c <= 'z' || 'A' <= c <= 'Z' || '0' <= c <= '9' || c in Punctuation
  }

  /** Where a character of the alphabet sits in it. */
  function AlphabetPosition(c: char): (k: nat)
    requires IsPasswordChar(c)
    ensures k < |PasswordAlphabet| == 70 && PasswordAlphabet[k] == c
  {
    if 'a' <= c <= 'z' then c as int - 'a' as int
    else if 'A' <= c <= 'Z' then 26 + (c as int - 'A' as int)
    else if '0' <= c <= '9' then 52 + (c as int - '0' as int)
    else 62 + IndexIn(c, Punctuation)
  }

  /** Everything in the alphabet is a letter, a digit or one of the eight
      punctuation marks. */
  lemma AlphabetClasses()
    ensures forall k :: 0 <= k < |PasswordAlphabet| ==> IsPasswordChar(PasswordAlphabet[k])
  {
    forall k | 0 <= k < |PasswordAlphabet| ensures IsPasswordChar(PasswordAlphabet[k]) {
      if k >= 62 {
        assert PasswordAlphabet[k] == Punctuation[k - 62];
      }
    }
  }

  /** The default password length. */
  const PasswordLength: nat := 12

  /** `generate_wifi_password(length)` with the positions `secrets.choice`
      picked, one per character. */
  function WifiPassword(length: nat, picks: seq<nat>): (r: string)
    requires |picks| == length && forall i :: 0 <= i < length ==> picks[i] < |PasswordAlphabet|
    ensures |r| == length && forall i :: 0 <= i < length ==> IsPasswordChar(r[i])
  {
    AlphabetClasses();
    seq(length, i requires 0 <= i < length => PasswordAlphabet[picks[i]])
  }

  /** Every string of the right length over the alphabet is a possible
      password, so the choices lose nothing. */
  lemma EveryPasswordReachable(pw: string)
    requires forall i :: 0 <= i < |pw| ==> IsPasswordChar(pw[i])
    ensures exists picks: seq<nat> ::
      && |picks| == |pw|
      && (forall i :: 0 <= i < |pw| ==> picks[i] < |PasswordAlphabet|)
      && WifiPassword(|pw|, picks) == pw
  {
    var picks := seq(|pw|, i requires 0 <= i < |pw| => AlphabetPosition(pw[i]));
    var r := WifiPassword(|pw|, picks);
    forall i | 0 <= i < |pw| ensures r[i] == pw[i] {
      assert picks[i] == AlphabetPosition(pw[i]);
    }
    assert r == pw;
  }

  /** A position of `c` in `s`. */
  function IndexIn(c: char, s: string): (k: nat)
    requires c in s
    ensures k < |s| && s[k] == c
  {
    if s[0] == c then 0 else 1 + IndexIn(c, s[1..])
  }

  /** The row `create_credentials` stores. */
  datatype StudentCredentials = StudentCredentials(
    username: string,
    wifiUsername: string,
    wifiPassword: string,
    libraryId: string,
    branchCode: string,
    branchName: string)

  /** The `post_save` receiver: on creation of a user, a credentials row for
      them; on any later save, nothing. */
  function CreateCredentials(created: bool, username: string, id: nat, picks: seq<nat>): (r: Option<StudentCredentials>)
    requires |picks| == PasswordLength && forall i :: 0 <= i < PasswordLength ==> picks[i] < |PasswordAlphabet|
    ensures r.Some? <==> created
    ensures r.Some? ==>
      && r.value.username == username && r.value.wifiUsername == username
      && |r.value.wifiPassword| == PasswordLength
      && (forall i :: 0 <= i < PasswordLength ==> IsPasswordChar(r.value.wifiPassword[i]))
      && r.value.libraryId == LibraryId(id)
      && (r.value.branchCode, r.value.branchName) == ExtractBranch(username)
  {
    if !created then None
    else
      var branch := ExtractBranch(username);
      Some(StudentCredentials(username, username, WifiPassword(PasswordLength, picks), LibraryId(id), branch.0, branch.1))
  }
}
