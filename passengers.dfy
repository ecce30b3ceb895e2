/** The passenger-list builder of simulator/functions.py. A loop adds either one
    passenger or, when it fits, a whole family of 2 to 5 sharing one surname, until
    the list holds exactly the requested number; a mail address is then derived
    from every passenger's name and surname. Faker's names and every random
    choice are drawn in advance and passed in. */
module Passengers {

  import opened Wrappers
  import opened Timestamp
  import opened FlightFunctions

  datatype Gender = Male | Female

  /** The text `random.choice(["male", "female"])` stores. */
  function GenderName(g: Gender): (s: string)
    ensures s == "male" || s == "female"
    ensures s == "male" <==> g == Male
  {
    match g
    case Male => "male"
    case Female => "female"
  }

  /** The draw that stores a gender text. */
  function GenderOf(s: string): (g: Gender)
    requires s == "male" || s == "female"
    ensures GenderName(g) == s
  {
    if s == "male" then Male else Female
  }

  /** What is drawn for one person: a gender, a first name of that gender, phone digits. */
  datatype PersonDraw = PersonDraw(gender: Gender, firstName: string, phoneDigits: seq<int>)

  predicate ValidPerson(p: PersonDraw) { ValidDigitDraws(p.phoneDigits) }

  /** What one turn of the loop draws: a single passenger, or a family of `familySize`
      members and the single passenger that replaces it when it does not fit. */
  datatype Draw =
    | SingleDraw(person: PersonDraw, surname: string)
    | FamilyDraw(familySize: int, surname: string, members: seq<PersonDraw>,
                 fallback: PersonDraw, fallbackSurname: string)

  predicate ValidDraw(d: Draw) {
    match d
    case SingleDraw(p, _) => ValidPerson(p)
    case FamilyDraw(size, _, members, fallback, _) =>
      2 <= size <= 5 && |members| == size && ValidPerson(fallback)
      && forall k :: 0 <= k < size ==> ValidPerson(members[k])
  }

  predicate ValidDraws(draws: seq<Draw>) {
    forall i :: 0 <= i < |draws| ==> ValidDraw(draws[i])
  }

  /** One dictionary of the `passengers` list. */
  datatype Passenger = Passenger(name: string, surname: string, gender: string, phoneNumber: string)

  /** A ten-digit phone number and the gender "male" or "female". */
  predicate WellFormed(p: Passenger) {
    IsPhoneNumber(p.phoneNumber) && (p.gender == "male" || p.gender == "female")
  }

  predicate AllWellFormed(ps: seq<Passenger>) {
    forall k :: 0 <= k < |ps| ==> WellFormed(ps[k])
  }

  function NewPassenger(p: PersonDraw, surname: string): (r: Passenger)
    requires ValidPerson(p)
    ensures WellFormed(r) && r.name == p.firstName && r.surname == surname
  {
    Passenger(p.firstName, surname, GenderName(p.gender), GeneratePhoneNumber(p.phoneDigits))
  }

  /** The members `generate_family_members` lists for the drawn persons. */
  function Family(surname: string, members: seq<PersonDraw>): (r: seq<Passenger>)
    requires forall k :: 0 <= k < |members| ==> ValidPerson(members[k])
    ensures |r| == |members| && AllWellFormed(r)
    ensures forall k :: 0 <= k < |r| ==> r[k].surname == surname
  {
    seq(|members|, k requires 0 <= k < |members| => NewPassenger(members[k], surname))
  }

  /** `generate_family_members(fake, family_size, surname)`. */
  method GenerateFamilyMembers(familySize: int, surname: string, members: seq<PersonDraw>)
    returns (family: seq<Passenger>)
    requires 0 <= familySize <= |members|
    requires forall k :: 0 <= k < |members| ==> ValidPerson(members[k])
    ensures family == Family(surname, members[..familySize])
    ensures |family| == familySize && forall k :: 0 <= k < familySize ==> family[k].surname == surname
  {
    family := [];
    for k := 0 to familySize
      invariant family == Family(surname, members[..k])
    {
      family := family + [NewPassenger(members[k], surname)];
    }
  }

  /** What one turn of the loop appends when `filled` passengers are listed already. */
  function Block(filled: int, num: int, d: Draw): (r: seq<Passenger>)
    requires ValidDraw(d)
    ensures 1 <= |r| <= 5 && AllWellFormed(r)
    // a family is added only when it fits, and then whole
    ensures filled < num ==> filled + |r| <= num
    ensures d.FamilyDraw? && filled + d.familySize <= num ==> r == Family(d.surname, d.members)
    ensures |r| != 1 ==> d.FamilyDraw? && r == Family(d.surname, d.members)
  {
    match d
    case SingleDraw(p, surname) => [NewPassenger(p, surname)]
    case FamilyDraw(size, surname, members, fallback, fallbackSurname) =>
      if filled + size <= num then Family(surname, members) else [NewPassenger(fallback, fallbackSurname)]
  }

  function Flatten(bs: seq<seq<Passenger>>): seq<Passenger>
  {
    if bs == [] then [] else bs[0] + Flatten(bs[1..])
  }

  lemma FlattenCons(b: seq<Passenger>, rest: seq<seq<Passenger>>)
    ensures Flatten([b] + rest) == b + Flatten(rest)
  {
    assert ([b] + rest)[1..] == rest;
  }

  lemma {:induction false} FlattenAppend(bs: seq<seq<Passenger>>, b: seq<Passenger>)
    ensures Flatten(bs + [b]) == Flatten(bs) + b
  {
    if bs == [] {
      assert [b][1..] == [];
    } else {
      assert (bs + [b])[1..] == bs[1..] + [b];
      FlattenAppend(bs[1..], b);
    }
  }

  /** The blocks the loop appends, one per turn, from the turn that draws `draws[i]`
      with `filled` passengers listed. */
  function Blocks(num: int, draws: seq<Draw>, i: nat, filled: nat): seq<seq<Passenger>>
    requires i <= |draws| && num - filled <= |draws| - i && ValidDraws(draws)
    decreases num - filled
  {
    if filled >= num then []
    else
      var b := Block(filled, num, draws[i]);
      [b] + Blocks(num, draws, i + 1, filled + |b|)
  }

  /** The turns from any point bring the list to exactly max(target, length so far). */
  lemma {:induction false} BlocksLength(num: int, draws: seq<Draw>, i: nat, filled: nat)
    requires i <= |draws| && num - filled <= |draws| - i && ValidDraws(draws)
    ensures filled + |Flatten(Blocks(num, draws, i, filled))| == Max(num, filled)
    decreases num - filled
  {
    if filled < num {
      var b := Block(filled, num, draws[i]);
      var rest := Blocks(num, draws, i + 1, filled + |b|);
      BlocksLength(num, draws, i + 1, filled + |b|);
      BlocksCons(num, draws, i, filled, b, rest);
      FlattenCons(b, rest);
    } else {
      assert Blocks(num, draws, i, filled) == [];
    }
  }

  /** A turn that still has passengers to add appends its block before the later turns. */
  lemma BlocksCons(num: int, draws: seq<Draw>, i: nat, filled: nat, b: seq<Passenger>, rest: seq<seq<Passenger>>)
    requires i < |draws| && num - filled <= |draws| - i && ValidDraws(draws) && filled < num
    requires b == Block(filled, num, draws[i]) && rest == Blocks(num, draws, i + 1, filled + |b|)
    ensures Blocks(num, draws, i, filled) == [b] + rest
  {
  }

  /** Every listed passenger is well-formed. */
  lemma {:induction false} BlocksWellFormed(num: int, draws: seq<Draw>, i: nat, filled: nat)
    requires i <= |draws| && num - filled <= |draws| - i && ValidDraws(draws)
    ensures AllWellFormed(Flatten(Blocks(num, draws, i, filled)))
    decreases num - filled
  {
    if filled < num {
      var b := Block(filled, num, draws[i]);
      var rest := Blocks(num, draws, i + 1, filled + |b|);
      BlocksWellFormed(num, draws, i + 1, filled + |b|);
      BlocksCons(num, draws, i, filled, b, rest);
      FlattenCons(b, rest);
      AllWellFormedAppend(b, Flatten(rest));
    } else {
      assert Blocks(num, draws, i, filled) == [];
    }
  }

  /** The loop takes at most one turn per draw. */
  lemma {:induction false} BlocksAtMostOnePerDraw(num: int, draws: seq<Draw>, i: nat, filled: nat)
    requires i <= |draws| && num - filled <= |draws| - i && ValidDraws(draws)
    ensures |Blocks(num, draws, i, filled)| <= |draws| - i
    decreases num - filled
  {
    if filled < num {
      var b := Block(filled, num, draws[i]);
      var rest := Blocks(num, draws, i + 1, filled + |b|);
      BlocksAtMostOnePerDraw(num, draws, i + 1, filled + |b|);
      BlocksCons(num, draws, i, filled, b, rest);
    }
  }

  lemma AllWellFormedAppend(a: seq<Passenger>, b: seq<Passenger>)
    requires AllWellFormed(a) && AllWellFormed(b)
    ensures AllWellFormed(a + b)
  {
    forall k | 0 <= k < |a + b|
      ensures WellFormed((a + b)[k])
    {
      if k >= |a| {
        assert (a + b)[k] == b[k - |a|];
      }
    }
  }

  /** The turn that draws `draws[i + j]` adds one passenger or that draw's whole family. */
  lemma {:induction false} BlockAt(num: int, draws: seq<Draw>, i: nat, filled: nat, j: nat)
    requires i <= |draws| && num - filled <= |draws| - i && ValidDraws(draws)
    requires j < |Blocks(num, draws, i, filled)|
    ensures var b := Blocks(num, draws, i, filled)[j];
      i + j < |draws|
      && (|b| == 1 || (draws[i + j].FamilyDraw? && b == Family(draws[i + j].surname, draws[i + j].members)))
    decreases j
  {
    var b := Block(filled, num, draws[i]);
    var rest := Blocks(num, draws, i + 1, filled + |b|);
    BlocksCons(num, draws, i, filled, b, rest);
    if j > 0 {
      BlockAt(num, draws, i + 1, filled + |b|, j - 1);
      assert Blocks(num, draws, i, filled)[j] == rest[j - 1];
      assert draws[i + j] == draws[(i + 1) + (j - 1)];
    } else {
      assert Blocks(num, draws, i, filled)[0] == b;
    }
  }

  /** The passengers the loop lists: exactly the requested number (none when it is
      not positive), each with a well-formed phone number. */
  function PassengerList(num: int, draws: seq<Draw>): (ps: seq<Passenger>)
    requires num <= |draws| && ValidDraws(draws)
    ensures |ps| == Max(num, 0) && AllWellFormed(ps)
  {
    BlocksWellFormed(num, draws, 0, 0);
    BlocksLength(num, draws, 0, 0);
    Flatten(Blocks(num, draws, 0, 0))
  }

  /** One more turn keeps the loop's invariant: the passengers listed are the blocks
      done so far, and those blocks and the blocks still to come make up all the blocks. */
  lemma PlanStep(num: int, draws: seq<Draw>, i: nat, done: seq<seq<Passenger>>, passengers: seq<Passenger>)
    requires num <= |draws| && ValidDraws(draws) && i <= |passengers| < num
    requires passengers == Flatten(done)
    requires done + Blocks(num, draws, i, |passengers|) == Blocks(num, draws, 0, 0)
    ensures var block := Block(|passengers|, num, draws[i]);
      var next := passengers + block;
      i + 1 <= |next| <= num && next == Flatten(done + [block])
      && (done + [block]) + Blocks(num, draws, i + 1, |next|) == Blocks(num, draws, 0, 0)
  {
    var block := Block(|passengers|, num, draws[i]);
    var rest := Blocks(num, draws, i + 1, |passengers| + |block|);
    BlocksCons(num, draws, i, |passengers|, block, rest);
    assert (done + [block]) + rest == done + ([block] + rest);
    FlattenAppend(done, block);
  }

  /** One turn of the loop: a single passenger, or the drawn family when it still
      fits and otherwise a single passenger in its place. */
  method AddTurn(passengers: seq<Passenger>, num: int, d: Draw) returns (next: seq<Passenger>)
    requires ValidDraw(d)
    ensures next == passengers + Block(|passengers|, num, d)
  {
    match d {
      case SingleDraw(person, surname) =>
        next := passengers + [NewPassenger(person, surname)];
      case FamilyDraw(size, surname, members, fallback, fallbackSurname) =>
        var family := GenerateFamilyMembers(size, surname, members);
        assert members[..size] == members;
        if |passengers| + |family| <= num {
          next := passengers + family;
        } else {
          next := passengers + [NewPassenger(fallback, fallbackSurname)];
        }
    }
  }

  /** The `while len(passengers) < num_passengers` loop of `generate_passengers_information`. */
  method BuildPassengerList(num: int, draws: seq<Draw>) returns (passengers: seq<Passenger>)
    requires num <= |draws| && ValidDraws(draws)
    ensures passengers == PassengerList(num, draws)
  {
    passengers := [];
    var i := 0;
    ghost var done: seq<seq<Passenger>> := [];
    while |passengers| < num
      invariant 0 <= i <= |passengers| <= Max(num, 0)
      invariant passengers == Flatten(done)
      invariant done + Blocks(num, draws, i, |passengers|) == Blocks(num, draws, 0, 0)
      decreases num - |passengers|
    {
      PlanStep(num, draws, i, done, passengers);
      ghost var block := Block(|passengers|, num, draws[i]);
      passengers := AddTurn(passengers, num, draws[i]);
      done := done + [block];
      i := i + 1;
    }
    assert Blocks(num, draws, i, |passengers|) == [];
    assert done + [] == done;
  }

  /** The draws of single passengers that list exactly ps. */
  function SingleDraws(ps: seq<Passenger>): (draws: seq<Draw>)
    requires AllWellFormed(ps)
    ensures |draws| == |ps| && ValidDraws(draws)
    ensures forall k :: 0 <= k < |ps| ==> draws[k].SingleDraw? && NewPassenger(draws[k].person, draws[k].surname) == ps[k]
  {
    seq(|ps|, k requires 0 <= k < |ps| =>
      SingleDraw(PersonDraw(GenderOf(ps[k].gender), ps[k].name, PhoneDigits(ps[k].phoneNumber)), ps[k].surname))
  }

  /** Draws of single passengers list exactly the passengers they draw, in order. */
  lemma {:induction false} BlocksOfSingles(ps: seq<Passenger>, draws: seq<Draw>, i: nat)
    requires i <= |ps| == |draws| && ValidDraws(draws)
    requires forall k :: 0 <= k < |ps| ==> draws[k].SingleDraw? && NewPassenger(draws[k].person, draws[k].surname) == ps[k]
    ensures Flatten(Blocks(|ps|, draws, i, i)) == ps[i..]
    decreases |ps| - i
  {
    if i < |ps| {
      var b := Block(i, |ps|, draws[i]);
      assert b == [ps[i]];
      var rest := Blocks(|ps|, draws, i + 1, i + 1);
      BlocksCons(|ps|, draws, i, i, b, rest);
      BlocksOfSingles(ps, draws, i + 1);
      FlattenCons(b, rest);
      assert ps[i..] == [ps[i]] + ps[i + 1..];
    } else {
      assert Blocks(|ps|, draws, i, i) == [];
    }
  }

  /** Every list of well-formed passengers is the list some draws produce. */
  lemma EveryPassengerListIsPossible(ps: seq<Passenger>)
    requires AllWellFormed(ps)
    ensures exists draws :: |ps| <= |draws| && ValidDraws(draws) && PassengerList(|ps|, draws) == ps
  {
    var draws := SingleDraws(ps);
    BlocksOfSingles(ps, draws, 0);
    assert ps[0..] == ps;
    assert PassengerList(|ps|, draws) == ps;
  }

  // ---------------------------------------------------------------- the data frame

  /** Python's `str.lower` on ASCII letters. */
  function LowerChar(c: char): char {
    if 'A' <= c <= 'Z' then (c as int - 'A' as int + 'a' as int) as char else c
  }

  function Lower(s: string): (r: string)
    ensures |r| == |s|
    ensures forall i :: 0 <= i < |r| ==> !('A' <= r[i] <= 'Z') && r[i] == LowerChar(s[i])
  {
    seq(|s|, i requires 0 <= i < |s| => LowerChar(s[i]))
  }

  lemma LowerIdempotent(s: string)
    ensures Lower(Lower(s)) == Lower(s)
  {
  }

  predicate Lacks(s: string, c: char) { forall i :: 0 <= i < |s| ==> s[i] != c }

  /** The `Mail` column: `name.lower() + '.' + surname.lower() + '@mail.com'`. The
      address has no upper-case letter and ends in "@mail.com", and that '@' is its
      only one when the name and surname have none. */
  function Mail(name: string, surname: string): (m: string)
    ensures |m| == |name| + |surname| + 10
    ensures forall i :: 0 <= i < |m| ==> !('A' <= m[i] <= 'Z')
    ensures m[|m| - 9..] == "@mail.com"
    ensures Lacks(name, '@') && Lacks(surname, '@') ==> Lacks(m[..|m| - 9], '@')
  {
    Lower(name) + "." + Lower(surname) + "@mail.com"
  }

  /** The address does not depend on the case of the name and surname. */
  lemma MailIgnoresCase(name: string, surname: string)
    ensures Mail(Lower(name), Lower(surname)) == Mail(name, surname)
  {
    LowerIdempotent(name);
    LowerIdempotent(surname);
  }

  /** For names without a '.', the address determines the name and the surname up to case. */
  lemma MailDeterminesNames(name1: string, surname1: string, name2: string, surname2: string)
    requires Lacks(name1, '.') && Lacks(name2, '.')
    requires Mail(name1, surname1) == Mail(name2, surname2)
    ensures Lower(name1) == Lower(name2) && Lower(surname1) == Lower(surname2)
  {
    var m := Mail(name1, surname1);
    assert m == Lower(name1) + "." + Lower(surname1) + "@mail.com";
    assert m == Lower(name2) + "." + Lower(surname2) + "@mail.com";
    // the first '.' of the address follows the name
    assert m[|name1|] == '.' && forall i :: 0 <= i < |name1| ==> m[i] == LowerChar(name1[i]) != '.';
    assert m[|name2|] == '.' && forall i :: 0 <= i < |name2| ==> m[i] == LowerChar(name2[i]) != '.';
    assert |name1| == |name2|;
    assert Lower(name1) == m[..|name1|] == Lower(name2);
    assert Lower(surname1) == m[|name1| + 1..|name1| + 1 + |surname1|] == Lower(surname2);
  }

  /** A row of the returned DataFrame. */
  datatype PassengerRow = PassengerRow(name: string, surname: string, gender: string,
                                       phoneNumber: string, mail: string)

  datatype PassengerFrame = PassengerFrame(columns: seq<string>, rows: seq<PassengerRow>)

  /** The columns in the order the dictionaries list them, then `Mail`. */
  const FrameColumns := ["Name", "Surname", "Gender", "PhoneNumber", "Mail"]

  function WithMail(p: Passenger): (row: PassengerRow)
  {
    PassengerRow(p.name, p.surname, p.gender, p.phoneNumber, Mail(p.name, p.surname))
  }

  /** `generate_passengers_information(fake, num_passengers)`. With no passenger the
      DataFrame has no column and reading its `Name` column raises KeyError. */
  method GeneratePassengersInformation(num: int, draws: seq<Draw>) returns (r: Result<PassengerFrame>)
    requires num <= |draws| && ValidDraws(draws)
    ensures r.Err? <==> num <= 0
    ensures r.Err? ==> r.error == MissingKey("Name")
    ensures r.Ok? ==> r.value.columns == FrameColumns && |r.value.rows| == num
    ensures r.Ok? ==> forall k :: 0 <= k < |r.value.rows| ==>
      var row, p := r.value.rows[k], PassengerList(num, draws)[k];
      row.name == p.name && row.surname == p.surname && row.gender == p.gender
      && row.phoneNumber == p.phoneNumber && IsPhoneNumber(row.phoneNumber)
      && row.mail == Mail(row.name, row.surname)
  {
    var passengers := BuildPassengerList(num, draws);
    if passengers == [] {
      return Err(MissingKey("Name"));
    }
    r := Ok(PassengerFrame(FrameColumns, seq(|passengers|, k requires 0 <= k < |passengers| => WithMail(passengers[k]))));
  }
}
