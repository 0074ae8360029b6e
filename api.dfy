/** lib/api.ts: the roster client. Its configuration check, which of the
    response shapes it accepts, and how each upstream record becomes a
    `Student` (synthesised ids, ID numbers, defaults and the years a card is
    valid for). The HTTP exchange itself is an abstract `Reply`. */
module Api {
  import opened Wrappers
  import opened Text
  import opened Types

  /** One record of `/users-list` (`ApiStudentResponse`): `full_name`,
      `programme`, `student_id_number`, `arrival_date`, `degree`, `campus`,
      `is_teacher`, `photo`; `None` is JSON `null`. */
  datatype ApiStudent = ApiStudent(
    fullName: string,
    programme: Option<string>,
    studentIdNumber: Option<string>,
    arrivalDate: Option<string>,
    degree: Option<string>,
    campus: string,
    isTeacher: bool,
    photo: string)

  /** The parsed JSON body, as far as `getStudents` looks at it. Arrays are
      read as arrays of roster records (the cast in the source is unchecked). */
  datatype Json = JArray(items: seq<ApiStudent>) | JObject(fields: map<string, Json>) | JNull | JScalar

  /** What the HTTP exchange gives back: a body, or a status that is not ok
      together with its status text and the text of the body. */
  datatype Reply = Ok(body: Json) | NotOk(status: nat, statusText: string, errorText: string)

  datatype ApiError =
    | ConfigurationMissing
    | RequestFailed(status: nat, statusText: string, errorText: string)
    | UnexpectedStructure
    /** `TypeError`: `null.data`, or `.map` on something that is not an array.
        Its message is the JavaScript engine's own text, which is not modelled:
        `Message` gives the error's name in its place. */
    | NotAnArray
  {
    function Message(): string {
      match this
      case ConfigurationMissing => "API configuration missing. Please check environment variables."
      case RequestFailed(status, statusText, errorText) =>
        "API request failed: " + NatToString(status) + " " + statusText + " - " + errorText
      case UnexpectedStructure => "Unexpected API response structure"
      case NotAnArray => "TypeError"
    }
  }

  /** The two settings the client keeps. */
  datatype ApiConfig = ApiConfig(baseUrl: string, token: string)

  /** The constructor: each setting is the environment variable or `''`, and
      an empty one is a configuration error. */
  function NewApiClient(apiUrlEnv: Option<string>, apiTokenEnv: Option<string>): (r: Result<ApiConfig, ApiError>)
    ensures r.Success? <==> Truthy(apiUrlEnv) && Truthy(apiTokenEnv)
    ensures r.Success? ==> r.value.baseUrl == apiUrlEnv.value && r.value.token == apiTokenEnv.value
    ensures r.Failure? ==> r.error == ConfigurationMissing
  {
    var baseUrl := apiUrlEnv.GetOr("");
    var token := apiTokenEnv.GetOr("");
    if baseUrl == "" || token == "" then Failure(ConfigurationMissing) else Success(ApiConfig(baseUrl, token))
  }

  /** An outbound request: the URL and its headers. */
  datatype Request = Request(url: string, headers: map<string, string>)

  /** `request('/users-list')`: the configured base, the endpoint, and the
      token in the `Access-Token` header. */
  function UsersListRequest(config: ApiConfig): (r: Request)
    ensures r.url == config.baseUrl + "/users-list"
    ensures "Access-Token" in r.headers && r.headers["Access-Token"] == config.token
    ensures "Content-Type" in r.headers && r.headers["Content-Type"] == "application/json"
  {
    var url := config.baseUrl + "/users-list";
    Request(url, map["Content-Type" := "application/json", "Access-Token" := config.token])
  }

  /** `.map` on a value that should be the array of records. */
  function AsRecords(v: Json): Result<seq<ApiStudent>, ApiError> {
    if v.JArray? then Success(v.items) else Failure(NotAnArray)
  }

  /** The response-shape selection of `getStudents`: a bare array; else
      `.data` when it is an array; else `.users`; else `.students`; anything
      else is an unexpected structure. */
  function SelectRecords(body: Json): (r: Result<seq<ApiStudent>, ApiError>)
    ensures r.Success? ==> body.JArray? || body.JObject?
    ensures body.JArray? ==> r == Success(body.items)
    ensures body.JScalar? ==> r == Failure(UnexpectedStructure)
    ensures body.JNull? ==> r == Failure(NotAnArray)
  {
    match body
    case JArray(items) => Success(items)
    case JNull => Failure(NotAnArray)
    case JScalar => Failure(UnexpectedStructure)
    case JObject(fields) =>
      if "data" in fields && fields["data"].JArray? then Success(fields["data"].items)
      else if "users" in fields then AsRecords(fields["users"])
      else if "students" in fields then AsRecords(fields["students"])
      else Failure(UnexpectedStructure)
  }

  /** Every accepted wrapping of the same records gives the same roster. */
  lemma ShapesAgree(records: seq<ApiStudent>)
    ensures SelectRecords(JObject(map["data" := JArray(records)])) == Success(records)
    ensures SelectRecords(JObject(map["users" := JArray(records)])) == Success(records)
    ensures SelectRecords(JObject(map["students" := JArray(records)])) == Success(records)
  {
  }

  /** An object's `data` array wins over `users` and `students`; `users`
      wins over `students`; an object with none of the three keys is an
      unexpected structure. */
  lemma ShapePriority(fields: map<string, Json>)
    ensures "data" in fields && fields["data"].JArray? ==> SelectRecords(JObject(fields)) == Success(fields["data"].items)
    ensures !("data" in fields && fields["data"].JArray?) && "users" in fields ==>
              SelectRecords(JObject(fields)) == AsRecords(fields["users"])
    ensures "data" !in fields && "users" !in fields && "students" !in fields ==>
              SelectRecords(JObject(fields)) == Failure(UnexpectedStructure)
  {
  }

  /** The years a card is valid for: 3 when the lower-cased degree (`master`
      when there is none) mentions `bachelor`, else 1. */
  function YearsToAdd(degree: Option<string>): (years: nat)
    ensures years == 3 || years == 1
    ensures years == 3 <==> Truthy(degree) && Contains(ToLower(degree.value), "bachelor")
    ensures !Truthy(degree) ==> years == 1
  {
    var degreeStr := if Truthy(degree) then degree.value else "master";
    assert !Truthy(degree) ==> !Contains(ToLower(degreeStr), "bachelor") by {
      if !Truthy(degree) && Contains(ToLower(degreeStr), "bachelor") {
        ContainsNeedsRoom(ToLower(degreeStr), "bachelor");
      }
    }
    if Contains(ToLower(degreeStr), "bachelor") then 3 else 1
  }

  /** `generateExpirationDate` once the date handling is taken out: the card
      date is the arrival date (`None`: today) moved on by a number of years
      and printed as "Month YYYY" in the browser's locale. */
  type ExpirationFormatter = (Option<string>, nat) -> string

  /** `String(index + 1).padStart(5, '0')`. */
  function Serial(index: nat): (r: string)
    ensures forall c :: c in r ==> IsDigit(c)
    ensures index < 99999 ==> |r| == 5
  {
    var digits := NatToString(index + 1);
    assert index < 99999 ==> |digits| <= 5 by {
      if index < 99999 {
        assert Pow10(5) == 100000;
        NatToStringLength(index + 1, 5);
      }
    }
    PadStart(digits, 5, '0')
  }

  /** A number below `10^k` takes at most `k` digits. */
  lemma {:induction false} NatToStringLength(n: nat, k: nat)
    requires k >= 1 && n < Pow10(k)
    ensures |NatToString(n)| <= k
  {
    assert Pow10(1) == 10;
    if n >= 10 {
      NatToStringLength(n / 10, k - 1);
    }
  }

  function Pow10(k: nat): (p: nat)
    ensures p >= 1
  {
    if k == 0 then 1 else 10 * Pow10(k - 1)
  }

  /** `generateIdNumber`: the upstream ID number when there is one; else the
      first five characters of the name without white space, lower-cased,
      a `-`, and the one-based position padded to five digits. */
  function IdNumber(a: ApiStudent, index: nat): (r: string)
    ensures Truthy(a.studentIdNumber) ==> r == a.studentIdNumber.value
  {
    if Truthy(a.studentIdNumber) then a.studentIdNumber.value
    else Prefix(ToLower(ReplaceSpaceRuns(a.fullName, "")), 5) + "-" + Serial(index)
  }

  /** The decimal value of a string of digits. */
  function DigitsValue(s: string): nat
    requires forall c :: c in s ==> IsDigit(c)
  {
    if s == [] then 0
    else
      assert forall c :: c in s[..|s| - 1] ==> c in s;
      var last := s[|s| - 1];
      assert last in s && IsDigit(last);
      10 * DigitsValue(s[..|s| - 1]) + (last as int - '0' as int)
  }

  /** Reading back what `String(n)` printed gives `n`. */
  lemma {:induction false} DigitsValueOfNat(n: nat)
    ensures DigitsValue(NatToString(n)) == n
  {
    if n >= 10 {
      DigitsValueOfNat(n / 10);
      var s := NatToString(n);
      assert s[..|s| - 1] == NatToString(n / 10);
    } else {
      assert NatToString(n)[..0] == [];
    }
  }

  /** Leading zeros do not change a decimal value. */
  lemma {:induction false} LeadingZeros(zeros: string, s: string)
    requires forall i :: 0 <= i < |zeros| ==> zeros[i] == '0'
    requires forall c :: c in s ==> IsDigit(c)
    ensures forall c :: c in zeros + s ==> IsDigit(c)
    ensures DigitsValue(zeros + s) == DigitsValue(s)
    decreases |s|
  {
    if s == [] {
      assert zeros + s == zeros;
      AllZeros(zeros);
    } else {
      var t := zeros + s;
      assert t[..|t| - 1] == zeros + s[..|s| - 1];
      assert forall c :: c in s[..|s| - 1] ==> c in s;
      LeadingZeros(zeros, s[..|s| - 1]);
    }
  }

  lemma {:induction false} AllZeros(zeros: string)
    requires forall i :: 0 <= i < |zeros| ==> zeros[i] == '0'
    ensures forall c :: c in zeros ==> IsDigit(c)
    ensures DigitsValue(zeros) == 0
  {
    if zeros != [] {
      AllZeros(zeros[..|zeros| - 1]);
      assert zeros[|zeros| - 1] in zeros;
    }
  }

  /** The padded serial reads back as the one-based position. */
  lemma SerialValue(index: nat)
    ensures DigitsValue(Serial(index)) == index + 1
  {
    var digits := NatToString(index + 1);
    DigitsValueOfNat(index + 1);
    if |digits| < 5 {
      var zeros := seq(5 - |digits|, _ => '0');
      assert Serial(index) == zeros + digits;
      LeadingZeros(zeros, digits);
    }
  }

  /** A generated ID number ends in the padded serial after its last `-`,
      and the serial reads back as the record's position, so two generated ID
      numbers of different records always differ, however many records there
      are and whatever the names. */
  lemma GeneratedIdNumbersDistinct(a: ApiStudent, i: nat, b: ApiStudent, j: nat)
    requires !Truthy(a.studentIdNumber) && !Truthy(b.studentIdNumber)
    requires i != j
    ensures IdNumber(a, i) != IdNumber(b, j)
  {
    var ha := Prefix(ToLower(ReplaceSpaceRuns(a.fullName, "")), 5);
    var hb := Prefix(ToLower(ReplaceSpaceRuns(b.fullName, "")), 5);
    assert '-' !in Serial(i) && '-' !in Serial(j) by {
      assert !IsDigit('-');
    }
    if IdNumber(a, i) == IdNumber(b, j) {
      SeparatorSuffix(ha, '-', Serial(i), hb, Serial(j));
      SerialValue(i);
      SerialValue(j);
    }
  }

  /** The generated ID number is the first five characters (all of them when
      there are fewer) of the lower-cased name with its white space removed,
      none of them white space, then `-`, then the padded serial. */
  lemma GeneratedIdNumberPrefix(a: ApiStudent, index: nat)
    requires !Truthy(a.studentIdNumber)
    ensures var n, r := ToLower(ReplaceSpaceRuns(a.fullName, "")), IdNumber(a, index);
            var k := if |n| < 5 then |n| else 5;
            && k < |r| && r[..k] == n[..k] && r[k] == '-' && r[k + 1..] == Serial(index)
            && forall c :: c in r[..k] ==> !IsSpace(c)
  {
    var hash := Prefix(ToLower(ReplaceSpaceRuns(a.fullName, "")), 5);
    var r := IdNumber(a, index);
    assert r[|hash|] == '-';
    assert r[..|hash|] == hash;
    forall c | c in hash ensures !IsSpace(c) {
      var lowered := ToLower(ReplaceSpaceRuns(a.fullName, ""));
      var i :| 0 <= i < |hash| && hash[i] == c;
      assert lowered[i] == c;
      assert ReplaceSpaceRuns(a.fullName, "")[i] in ReplaceSpaceRuns(a.fullName, "");
    }
  }

  /** `uniqueId`: white-space runs of the name become `_`, lower-cased, then
      `_` and the index. */
  function UniqueId(fullName: string, index: nat): (id: string)
    ensures EndsWith(id, "_" + NatToString(index))
  {
    var id := ToLower(ReplaceSpaceRuns(fullName, "_")) + "_" + NatToString(index);
    assert id[|id| - |"_" + NatToString(index)|..] == "_" + NatToString(index);
    id
  }

  /** The last index of `c` in `s`, or -1 when it does not occur. */
  function LastIndexOf(s: string, c: char): (k: int)
    ensures -1 <= k < |s|
    ensures k >= 0 ==> s[k] == c
    ensures forall j :: k < j < |s| ==> s[j] != c
  {
    if s == [] then -1
    else if s[|s| - 1] == c then |s| - 1
    else LastIndexOf(s[..|s| - 1], c)
  }

  /** In `p + [sep] + d` with no `sep` in `d`, the last `sep` is the one added. */
  lemma {:induction false} LastSeparator(p: string, sep: char, d: string)
    requires sep !in d
    ensures LastIndexOf(p + [sep] + d, sep) == |p|
  {
    var s := p + [sep] + d;
    if d != [] {
      assert s[..|s| - 1] == p + [sep] + d[..|d| - 1];
      assert d[|d| - 1] in d;
      assert sep !in d[..|d| - 1] by {
        assert forall x :: x in d[..|d| - 1] ==> x in d;
      }
      LastSeparator(p, sep, d[..|d| - 1]);
    }
  }

  /** What follows the last separator is the same in two equal strings. */
  lemma SeparatorSuffix(p: string, sep: char, d1: string, q: string, d2: string)
    requires sep !in d1 && sep !in d2
    requires p + [sep] + d1 == q + [sep] + d2
    ensures d1 == d2
  {
    var s := p + [sep] + d1;
    LastSeparator(p, sep, d1);
    LastSeparator(q, sep, d2);
    assert d1 == s[|p| + 1..];
    assert d2 == (q + [sep] + d2)[|q| + 1..];
  }

  /** Records at different positions get different ids, whatever their names. */
  lemma UniqueIdInjective(n1: string, i: nat, n2: string, j: nat)
    requires UniqueId(n1, i) == UniqueId(n2, j)
    ensures i == j
  {
    assert '_' !in NatToString(i) && '_' !in NatToString(j) by {
      assert !IsDigit('_');
    }
    SeparatorSuffix(ToLower(ReplaceSpaceRuns(n1, "_")), '_', NatToString(i), ToLower(ReplaceSpaceRuns(n2, "_")), NatToString(j));
    NatToStringInjective(i, j);
  }

  /** `value || fallback` on a nullable string. */
  function OrDefault(o: Option<string>, fallback: string): (r: string)
    ensures Truthy(o) ==> r == o.value
    ensures !Truthy(o) ==> r == fallback
  {
    if Truthy(o) then o.value else fallback
  }

  /** `transformStudent`. */
  function TransformStudent(a: ApiStudent, index: nat, expire: ExpirationFormatter): (s: Student)
    ensures s.id == UniqueId(a.fullName, index)
    ensures s.name == (if a.fullName != "" then a.fullName else "Unknown Student")
    ensures s.degree == OrDefault(a.degree, "Master")
    ensures s.programme == OrDefault(a.programme, "General Studies")
    ensures s.photoUrl == (if a.photo != "" then a.photo else "/test-photo.jpg")
    ensures s.idNumber == IdNumber(a, index)
    ensures s.expirationDate == expire(if Truthy(a.arrivalDate) then a.arrivalDate else None, YearsToAdd(a.degree))
    ensures s.email == Some("") && s.status == Some("active")
    ensures s.arrivalDate == a.arrivalDate && s.campus == Some(a.campus)
  {
    Student(
      UniqueId(a.fullName, index),
      if a.fullName != "" then a.fullName else "Unknown Student",
      OrDefault(a.degree, "Master"),
      OrDefault(a.programme, "General Studies"),
      IdNumber(a, index),
      expire(if Truthy(a.arrivalDate) then a.arrivalDate else None, YearsToAdd(a.degree)),
      if a.photo != "" then a.photo else "/test-photo.jpg",
      Some(""),
      Some("active"),
      a.arrivalDate,
      Some(a.campus))
  }

  /** `students.map((student, index) => transformStudent(student, index))`. */
  function TransformAll(records: seq<ApiStudent>, expire: ExpirationFormatter): (r: seq<Student>)
    ensures |r| == |records|
    ensures forall i :: 0 <= i < |records| ==> r[i] == TransformStudent(records[i], i, expire)
  {
    seq(|records|, i requires 0 <= i < |records| => TransformStudent(records[i], i, expire))
  }

  /** The ids of one fetch are pairwise distinct, even for records with the
      same name: the index makes each one unique. */
  lemma RosterIdsDistinct(records: seq<ApiStudent>, expire: ExpirationFormatter)
    ensures var r := TransformAll(records, expire);
            forall i, j :: 0 <= i < j < |r| ==> r[i].id != r[j].id
  {
    var r := TransformAll(records, expire);
    forall i, j | 0 <= i < j < |r| ensures r[i].id != r[j].id {
      if r[i].id == r[j].id {
        UniqueIdInjective(records[i].fullName, i, records[j].fullName, j);
      }
    }
  }

  /** `getStudents`: a failed request raises its status; otherwise the
      records of the accepted shape, one student per record in order. */
  function GetStudents(reply: Reply, expire: ExpirationFormatter): (r: Result<seq<Student>, ApiError>)
    ensures reply.NotOk? ==> r == Failure(RequestFailed(reply.status, reply.statusText, reply.errorText))
    ensures reply.Ok? && SelectRecords(reply.body).Failure? ==> r == Failure(SelectRecords(reply.body).error)
    ensures reply.Ok? && SelectRecords(reply.body).Success? ==>
              r.Success? && |r.value| == |SelectRecords(reply.body).value|
              && forall i :: 0 <= i < |r.value| ==> r.value[i] == TransformStudent(SelectRecords(reply.body).value[i], i, expire)
  {
    match reply
    case NotOk(status, statusText, errorText) => Failure(RequestFailed(status, statusText, errorText))
    case Ok(body) =>
      match SelectRecords(body)
      case Failure(e) => Failure(e)
      case Success(records) => Success(TransformAll(records, expire))
  }

  /** `testConnection`: never raises; reports the error message on failure. */
  function TestConnection(reply: Reply, expire: ExpirationFormatter): (r: (bool, string))
    ensures r.0 <==> GetStudents(reply, expire).Success?
    ensures r.0 ==> r.1 == "API connection successful"
    ensures !r.0 ==> r.1 == "API connection failed: " + GetStudents(reply, expire).error.Message()
  {
    match GetStudents(reply, expire)
    case Success(_) => (true, "API connection successful")
    case Failure(e) => (false, "API connection failed: " + e.Message())
  }
}
