/** The map between user function names and the names the Harmony format allows (harmony/harmonyparser.go). */
module FunctionNames {
  import opened Sets

  // ---------- Numbered candidates ----------

  function Digit(d: int): char
    requires 0 <= d < 10
  {
    ['0', '1', '2', '3', '4', '5', '6', '7', '8', '9'][d]
  }

  function DigitValue(c: char): int { c as int - '0' as int }

  /** %d of a natural number. */
  function Decimal(n: nat): (s: string)
    ensures s != ""
  {
    if n < 10 then [Digit(n)] else Decimal(n / 10) + [Digit(n % 10)]
  }

  function Value(s: string): int {
    if s == "" then 0 else 10 * Value(s[..|s| - 1]) + DigitValue(s[|s| - 1])
  }

  lemma {:induction false} ValueOfDecimal(n: nat)
    ensures Value(Decimal(n)) == n
  {
    if n < 10 {
      var s := Decimal(n);
      assert s[..0] == "" && Value("") == 0;
      assert DigitValue(Digit(n)) == n;
    } else {
      ValueOfDecimal(n / 10);
      var s := Decimal(n);
      assert s[..|s| - 1] == Decimal(n / 10);
      assert DigitValue(Digit(n % 10)) == n % 10;
    }
  }

  /** The names tried for a base name, in order: f, f_2, f_3, ... */
  function Candidate(base: string, k: int): string
    requires k >= 1
  {
    if k == 1 then base else base + "_" + Decimal(k)
  }

  /** Plain decimal numbers, without zeros in front, behind an underscore, from two on. */
  lemma CandidateNames(base: string, k: int)
    requires k >= 1
    ensures Candidate(base, 1) == base && Candidate(base, 2) == base + "_2" && Candidate(base, 10) == base + "_10"
    ensures k > 1 ==> base + "_" <= Candidate(base, k) && Value(Candidate(base, k)[|base| + 1..]) == k
    ensures k > 1 ==> Candidate(base, k)[|base| + 1] != '0'
  {
    assert Decimal(10) == Decimal(1) + [Digit(0)] == "10";
    ValueOfDecimal(k);
    NoZeroFirst(k);
    if k > 1 {
      assert Candidate(base, k)[|base| + 1..] == Decimal(k);
    }
  }

  lemma {:induction false} NoZeroFirst(n: nat)
    requires n > 0
    ensures Decimal(n)[0] != '0'
  {
    if n >= 10 {
      NoZeroFirst(n / 10);
    }
  }

  lemma CandidatesDiffer(base: string, j: int, k: int)
    requires 1 <= j < k
    ensures Candidate(base, j) != Candidate(base, k)
  {
    ValueOfDecimal(k);
    var c := Candidate(base, k);
    assert c[|base| + 1..] == Decimal(k);
    if j > 1 {
      ValueOfDecimal(j);
      assert Candidate(base, j)[|base| + 1..] == Decimal(j);
    }
  }

  // ---------- Converting characters ----------

  /** Which characters Unicode calls letters and digits. */
  datatype Classes = Classes(letter: char -> bool, digit: char -> bool)
  {
    /** Spaces, dashes and dots become underscores; other characters that no identifier has are dropped. */
    function Mapped(c: char): string {
      if c == ' ' || c == '-' || c == '.' then "_"
      else if letter(c) || digit(c) || c == '_' || c == '$' then [c]
      else ""
    }

    predicate Allowed(c: char) { letter(c) || digit(c) || c == '_' || c == '$' }

    function MapAll(s: string): (r: string)
      ensures forall i :: 0 <= i < |r| ==> Allowed(r[i])
    {
      if s == "" then "" else MapAll(s[..|s| - 1]) + Mapped(s[|s| - 1])
    }

    /** A non-empty identifier that does not start with an ASCII digit. The source looks at the first byte, which is
        a digit for no character outside ASCII. */
    function ToValidChars(s: string): (r: string)
      ensures r != "" && !('0' <= r[0] <= '9')
      ensures r == "unnamed" || forall i :: 0 <= i < |r| ==> Allowed(r[i])
    {
      var c := MapAll(s);
      if c == "" then "unnamed" else if '0' <= c[0] <= '9' then "_" + c else c
    }

    lemma {:induction false} MapAppend(a: string, b: string)
      ensures MapAll(a + b) == MapAll(a) + MapAll(b)
    {
      if b == "" {
        assert a + b == a;
      } else {
        var n := |b| - 1;
        assert (a + b)[..|a + b| - 1] == a + b[..n];
        MapAppend(a, b[..n]);
      }
    }

    /** Position by position, in a name of characters that stay or are replaced. */
    lemma {:induction false} MapsInPlace(s: string)
      requires forall i :: 0 <= i < |s| ==> s[i] in " -._$" || letter(s[i]) || digit(s[i])
      ensures |MapAll(s)| == |s|
      ensures forall i :: 0 <= i < |s| ==> MapAll(s)[i] == if s[i] in " -." then '_' else s[i]
    {
      if s != "" {
        MapsInPlace(s[..|s| - 1]);
      }
    }

    /** All other characters leave nothing behind. */
    lemma OthersDropped(a: string, c: char, b: string)
      requires !(c in " -._$") && !letter(c) && !digit(c)
      ensures MapAll(a + [c] + b) == MapAll(a + b)
    {
      MapOne(c);
      hide MapAll;
      MapAppend(a + [c], b);
      MapAppend(a, [c]);
      MapAppend(a, b);
      assert MapAll(a) + "" == MapAll(a);
    }

    lemma MapOne(c: char)
      ensures MapAll([c]) == Mapped(c)
    {
      assert [c][..0] == "";
      assert MapAll("") == "";
    }

    /** A name that is valid already is kept; one that starts with a digit gains an underscore; and one of which nothing
        is left is called unnamed. */
    lemma ValidKept(s: string)
      requires forall i :: 0 <= i < |s| ==> s[i] in "_$" || ((letter(s[i]) || digit(s[i])) && !(s[i] in " -."))
      ensures ToValidChars(s) == if s == "" then "unnamed" else if '0' <= s[0] <= '9' then "_" + s else s
    {
      MapsInPlace(s);
      assert MapAll(s) == s;
    }

    /** Digits agree with ASCII there. */
    ghost predicate Sane() { forall c :: c as int < 128 ==> digit(c) == ('0' <= c <= '9') }

    /** A name starts with a digit exactly if what is left of the given one starts with a digit outside ASCII. */
    lemma StartsWithDigit(s: string)
      requires Sane()
      ensures digit(ToValidChars(s)[0]) <==> MapAll(s) != "" && digit(MapAll(s)[0]) && MapAll(s)[0] as int >= 128
    {
    }
  }

  const BUILT_IN := {"browser.open", "browser.search", "browser.find", "python"}

  /** name is the first candidate for base that is not taken. */
  ghost predicate FirstFree(taken: set<string>, base: string, name: string, k: int) {
    && k >= 1 && name == Candidate(base, k) && name !in taken
    && forall j :: 1 <= j < k ==> Candidate(base, j) in taken
  }

  lemma NotTried(base: string, tried: set<string>, k: int)
    requires k >= 1 && forall s :: s in tried ==> exists j :: 1 <= j < k && s == Candidate(base, j)
    ensures Candidate(base, k) !in tried
  {
    hide Candidate;
    if Candidate(base, k) in tried {
      var j :| 1 <= j < k && Candidate(base, k) == Candidate(base, j);
      CandidatesDiffer(base, j, k);
    }
  }

  /** The user's name for a name the model used. */
  function Original(issued: map<string, string>, name: string): string {
    if name in issued then issued[name] else name
  }

  class FunctionNameMap {
    const classes: Classes
    var userToHarmony: map<string, string>
    var harmonyToUser: map<string, string>

    constructor (c: Classes)
      ensures classes == c && userToHarmony == map[] && harmonyToUser == map[]
    {
      classes, userToHarmony, harmonyToUser := c, map[], map[];
    }

    /** Terminates by counting: the candidates are all different and only finitely many names are taken. */
    method DeriveName(user: string) returns (name: string, ghost k: int)
      ensures name !in harmonyToUser
      ensures FirstFree(harmonyToUser.Keys, classes.ToValidChars(user), name, k)
      ensures k <= |harmonyToUser.Keys| + 1
    {
      hide Decimal;
      var base := classes.ToValidChars(user);
      name := base;
      k := 1;
      var count := 2;
      ghost var tried: set<string> := {};
      while name in harmonyToUser
        invariant count == k + 1 && k >= 1 && name == Candidate(base, k)
        invariant forall s :: s in tried ==> exists j :: 1 <= j < k && s == Candidate(base, j)
        invariant forall j :: 1 <= j < k ==> Candidate(base, j) in tried
        invariant tried <= harmonyToUser.Keys && |tried| == k - 1
        decreases |harmonyToUser.Keys| - |tried|
      {
        NotTried(base, tried, k);
        tried := tried + {name};
        SubsetSize(tried, harmonyToUser.Keys);
        name := base + "_" + Decimal(count);
        count, k := count + 1, k + 1;
      }
      SubsetSize(tried, harmonyToUser.Keys);
    }

    method ConvertAndAdd(user: string) returns (name: string, ghost k: int)
      modifies this
      ensures Added(classes, old(harmonyToUser), user, name)
      ensures user in ["browser.open", "browser.search", "browser.find", "python"] ==> name == user
      ensures userToHarmony == old(userToHarmony)[user := name]
      ensures harmonyToUser == old(harmonyToUser)[name := user]
    {
      name, k := DeriveName(user);
      if user in BUILT_IN {
        name := user;
      }
      userToHarmony := userToHarmony[user := name];
      harmonyToUser := harmonyToUser[name := user];
    }

    method OriginalFromConverted(name: string) returns (user: string)
      ensures user == Original(harmonyToUser, name)
    {
      if name in harmonyToUser {
        return harmonyToUser[name];
      }
      return name;
    }
  }

  // ---------- Histories ----------

  /** name is what adding user to a map of issued names gives. */
  ghost predicate Added(c: Classes, issued: map<string, string>, user: string, name: string)
  {
    if user in BUILT_IN then name == user else exists k :: FirstFree(issued.Keys, c.ToValidChars(user), name, k)
  }

  /** A history of additions: users[i] was issued names[i] when the map was maps[i]. */
  ghost predicate History(c: Classes, users: seq<string>, names: seq<string>, maps: seq<map<string, string>>)
  {
    && |users| == |names| == |maps| - 1 && maps[0] == map[]
    && forall i {:trigger HistoryStep(c, users, names, maps, i)} :: 0 <= i < |users| ==>
       HistoryStep(c, users, names, maps, i)
  }

  ghost predicate HistoryStep(c: Classes, users: seq<string>, names: seq<string>, maps: seq<map<string, string>>,
                              i: int)
    requires |users| == |names| == |maps| - 1 && 0 <= i < |users|
  {
    Added(c, maps[i], users[i], names[i]) && maps[i + 1] == maps[i][names[i] := users[i]]
  }

  lemma {:induction false} IssuedStay(c: Classes, users: seq<string>, names: seq<string>,
                                      maps: seq<map<string, string>>, i: int, k: int)
    requires History(c, users, names, maps) && 0 <= i < k <= |users|
    ensures names[i] in maps[k]
    decreases k
  {
    assert HistoryStep(c, users, names, maps, k - 1);
    if i < k - 1 {
      IssuedStay(c, users, names, maps, i, k - 1);
    }
  }

  /** A name that was derived is new: no two names issued to users that are not built in are the same. */
  lemma IssuedDistinct(c: Classes, users: seq<string>, names: seq<string>, maps: seq<map<string, string>>, i: int,
                       j: int)
    requires History(c, users, names, maps) && 0 <= i < j < |users| && users[j] !in BUILT_IN
    ensures names[i] != names[j]
  {
    IssuedStay(c, users, names, maps, i, j);
    assert HistoryStep(c, users, names, maps, j);
  }

  /** An issued name maps back to its user after all later additions, exactly as long as no built-in function
      of that very name was added for a different user. */
  lemma {:induction false} MapsBack(c: Classes, users: seq<string>, names: seq<string>, maps: seq<map<string, string>>,
                                    i: int, k: int)
    requires History(c, users, names, maps) && 0 <= i < k <= |users|
    ensures names[i] in maps[k]
    ensures maps[k][names[i]] == users[i] <==>
            forall j :: i < j < k && users[j] in BUILT_IN && users[j] == names[i] ==> users[j] == users[i]
    ensures maps[k][names[i]] == users[i] || maps[k][names[i]] == names[i]
    decreases k
  {
    assert HistoryStep(c, users, names, maps, k - 1);
    if i < k - 1 {
      MapsBack(c, users, names, maps, i, k - 1);
      if users[k - 1] !in BUILT_IN {
        IssuedDistinct(c, users, names, maps, i, k - 1);
      }
    }
  }

  lemma {:induction false} OnlyIssued(c: Classes, users: seq<string>, names: seq<string>,
                                      maps: seq<map<string, string>>, k: int, name: string)
    requires History(c, users, names, maps) && 0 <= k <= |users| && name in maps[k]
    ensures exists i :: 0 <= i < k && names[i] == name
  {
    if k > 0 {
      assert HistoryStep(c, users, names, maps, k - 1);
      if name != names[k - 1] {
        OnlyIssued(c, users, names, maps, k - 1, name);
      }
    }
  }

  /** What the model calls a function is turned back into the user's name, exactly as MapsBack says; and a name that
      was never issued stays as it is. */
  lemma OriginalExact(c: Classes, users: seq<string>, names: seq<string>, maps: seq<map<string, string>>, k: int,
                      name: string)
    requires History(c, users, names, maps) && 0 <= k <= |users|
    ensures forall i :: 0 <= i < k && names[i] == name ==>
              (Original(maps[k], name) == users[i] <==>
               forall j :: i < j < k && users[j] in BUILT_IN && users[j] == name ==> users[j] == users[i])
    ensures (forall i :: 0 <= i < k ==> names[i] != name) ==> Original(maps[k], name) == name
  {
    forall i | 0 <= i < k && names[i] == name
      ensures Original(maps[k], name) == users[i] <==>
              forall j :: i < j < k && users[j] in BUILT_IN && users[j] == name ==> users[j] == users[i]
    {
      MapsBack(c, users, names, maps, i, k);
    }
    if name in maps[k] {
      OnlyIssued(c, users, names, maps, k, name);
    }
  }

  /** Without built-in names every issued name keeps mapping back to its user. */
  lemma MapsBackAlways(c: Classes, users: seq<string>, names: seq<string>, maps: seq<map<string, string>>, i: int,
                       k: int)
    requires History(c, users, names, maps) && 0 <= i < k <= |users|
    requires forall j :: 0 <= j < |users| ==> users[j] !in BUILT_IN
    ensures names[i] in maps[k] && maps[k][names[i]] == users[i]
  {
    MapsBack(c, users, names, maps, i, k);
  }

  /** With one it can fail: a user whose name reduces to "python" loses it to the built-in function. */
  lemma BuiltInTakesName(c: Classes, user: string, names: seq<string>, maps: seq<map<string, string>>)
    requires user !in BUILT_IN && c.ToValidChars(user) == "python"
    requires History(c, [user, "python"], names, maps)
    ensures names[0] == "python" && names[0] in maps[2] && maps[2][names[0]] != user
  {
    var users := [user, "python"];
    assert HistoryStep(c, users, names, maps, 0);
    var k :| FirstFree(maps[0].Keys, c.ToValidChars(user), names[0], k);
    assert Candidate("python", 1) !in maps[0].Keys;
    MapsBack(c, users, names, maps, 0, 2);
    assert users[1] in BUILT_IN && users[1] == names[0] && users[1] != users[0];
  }
}
