/** What an assessed matrix records: the admission with its basis, or the reasons of a rejection. */
module MatrixRecords {
  import opened Bytes
  import opened Sorting
  import opened Domain
  import opened Envelopes
  import opened Assessment

  /** A dimension that must not vary. */
  ghost predicate Checked(c: Config, n: bytes)
  {
    n in c.required || exists r <- c.rejected :: r.name == n
  }

  /** Every row measured this value in the dimension. */
  ghost predicate Measured(rows: seq<Measurements>, n: bytes, value: bytes)
  {
    forall row <- rows :: n in row.values && row.values[n] == value
  }

  lemma ChecksAre(c: Config, n: bytes)
    ensures (exists check <- Checks(c) :: check.name == n) <==> Checked(c, n)
  {
    var checks := Checks(c);
    if check :| check in checks && check.name == n {
      var i :| 0 <= i < |checks| && checks[i] == check;
      if i >= |c.required| {
        assert c.rejected[i - |c.required|].name == n;
      }
    }
    if n in c.required {
      var i :| 0 <= i < |c.required| && c.required[i] == n;
      assert checks[i].name == n;
    }
    if r :| r in c.rejected && r.name == n {
      var i :| 0 <= i < |c.rejected| && c.rejected[i] == r;
      assert checks[|c.required| + i].name == n;
    }
  }

  /** Without a reason every checked dimension has one value in the matrix. */
  lemma {:induction false} NoReasonAgree(rows: seq<Measurements>, checks: seq<Check>, check: Check)
    requires rows != [] && Reasons(rows, checks) == {} && check in checks
    ensures check.name in rows[0].values && Agree(rows, check.name)
  {
    hide Agree;
    var last := |checks| - 1;
    assert checks == checks[..last] + [checks[last]];
    if check == checks[last] {
      assert check.name in rows[0].values;
      ReasonsOfCheck(rows, check);
    } else {
      NoReasonAgree(rows, checks[..last], check);
    }
  }

  lemma {:induction false} BasisHolds(row: Measurements, checks: seq<Check>, b: BasisValue)
    ensures b in BasisValues(row, checks) <==>
      (exists check <- checks :: check.name == b.name) && b.name in row.values && row.values[b.name] == b.canonical
  {
    if checks != [] {
      var last := |checks| - 1;
      assert checks == checks[..last] + [checks[last]];
      BasisHolds(row, checks[..last], b);
    }
  }

  /** Checks of different names give each name one basis value. */
  lemma {:induction false} BasisDistinct(row: Measurements, checks: seq<Check>)
    requires forall i, j :: 0 <= i < j < |checks| ==> checks[i].name != checks[j].name
    ensures DistinctKeys(BasisValues(row, checks), BasisName)
  {
    if checks != [] {
      var last := |checks| - 1;
      var before := BasisValues(row, checks[..last]);
      BasisDistinct(row, checks[..last]);
      forall i | 0 <= i < |before| ensures before[i].name != checks[last].name {
        BasisHolds(row, checks[..last], before[i]);
        var check :| check in checks[..last] && check.name == before[i].name;
        var k :| 0 <= k < last && checks[k] == check;
        assert checks[k].name != checks[last].name;
      }
    }
  }

  /** An acceptable envelope checks every dimension once. */
  lemma ChecksDiffer(c: Config)
    requires Acceptable(c)
    ensures forall i, j :: 0 <= i < j < |Checks(c)| ==> Checks(c)[i].name != Checks(c)[j].name
  {
    var checks := Checks(c);
    forall i, j | 0 <= i < j < |checks| ensures checks[i].name != checks[j].name {
      if j < |c.required| {
        assert Itself(c.required[i]) != Itself(c.required[j]);
      } else if i >= |c.required| {
        assert RejectedName(c.rejected[i - |c.required|]) != RejectedName(c.rejected[j - |c.required|]);
      } else {
        OneComparator(c, c.required[i], c.rejected[j - |c.required|]);
      }
    }
  }

  lemma OneComparator(c: Config, n: bytes, r: Rejected)
    requires Acceptable(c) && n in c.required && r in c.rejected
    ensures n != r.name
  {
    assert Measures(c.measured, Itself(n), Exact) && Measures(c.measured, RejectedName(r), RejectOnVariance);
    var a :| a in c.measured && a.name == n && a.comparator == Exact;
    var b :| b in c.measured && b.name == r.name && b.comparator == RejectOnVariance;
    var i :| 0 <= i < |c.measured| && c.measured[i] == a;
    var j :| 0 <= j < |c.measured| && c.measured[j] == b;
    assert a.name == b.name ==> DimensionName(c.measured[i]) == DimensionName(c.measured[j]);
  }

  ghost predicate AdmittedBy(envelope: Envelope, rows: seq<Measurements>, a: Admission)
  {
    Assess(envelope, rows).Ok? && Assess(envelope, rows).value.Admitted? && Assess(envelope, rows).value.admission == a
  }

  lemma AdmittedParts(envelope: Envelope, rows: seq<Measurements>, a: Admission)
    requires AdmittedBy(envelope, rows, a)
    ensures rows != [] && SoundMatrix(envelope.digest, rows) && Reasons(rows, Checks(envelope.config)) == {}
    ensures a == AdmissionOf(envelope, rows)
  {
    hide AdmissionOf, Tokens, Checks, Reasons, SoundMatrix, FirstRefusal, SoundBinding;
    AcceptedMatrix(envelope.digest, rows);
  }

  /** The basis of an admission holds exactly the values that the whole matrix measured in the required and
      rejected dimensions. */
  lemma BasisExactly(envelope: Envelope, rows: seq<Measurements>, a: Admission, n: bytes, value: bytes)
    requires AdmittedBy(envelope, rows, a)
    ensures BasisValue(n, value) in a.basis <==> Checked(envelope.config, n) && Measured(rows, n, value)
    ensures Checked(envelope.config, n) ==> n in rows[0].values && Measured(rows, n, rows[0].values[n])
  {
    hide AdmittedBy, SoundMatrix, Checks, SortBy, Reasons, BasisValues;
    AdmittedParts(envelope, rows, a);
    var checks := Checks(envelope.config);
    SortByCorrect(BasisValues(rows[0], checks), BasisName);
    BasisHolds(rows[0], checks, BasisValue(n, value));
    ChecksAre(envelope.config, n);
    if check :| check in checks && check.name == n {
      NoReasonAgree(rows, checks, check);
      assert rows[0] in rows;
    }
    assert rows[0] in rows;
  }

  /** It is sorted by name, and under an acceptable envelope names each dimension once. */
  lemma BasisSorted(envelope: Envelope, rows: seq<Measurements>, a: Admission)
    requires AdmittedBy(envelope, rows, a) && Acceptable(envelope.config)
    ensures StrictlySorted(a.basis, BasisName)
  {
    hide AdmittedBy, SoundMatrix, Checks, SortBy, Reasons, BasisValues, Acceptable;
    AdmittedParts(envelope, rows, a);
    var basis := BasisValues(rows[0], Checks(envelope.config));
    ChecksDiffer(envelope.config);
    BasisDistinct(rows[0], Checks(envelope.config));
    SortByPermutation(basis, basis, BasisName);
  }

  /** The rest of an admission: the binding of every row, and exactly the rows' candidates and digests. */
  lemma AdmissionExactly(envelope: Envelope, rows: seq<Measurements>, a: Admission)
    requires AdmittedBy(envelope, rows, a)
    ensures a.envelope == envelope.digest && (forall row <- rows :: row.binding == a.binding)
    ensures forall c :: c in a.roster <==> exists row <- rows :: row.candidate == c
    ensures forall d :: d in a.measurements <==> exists row <- rows :: row.digest == d
    ensures StrictlySorted(a.roster, Itself) && Sorted(a.measurements, Itself) && |a.measurements| == |a.roster| == |rows|
  {
    hide AdmittedBy, SoundRow, RowsDiffer, Checks, SortBy, Reasons, BasisValues, Less;
    AdmittedParts(envelope, rows, a);
    AdmittedRoster(envelope, rows) by {
      assert AdmittedBy(envelope, rows, a);
      AdmittedOk(envelope, rows, a);
    }
    SortByCorrect(Candidates(rows), Itself);
    SortByCorrect(Digests(rows), Itself);
    assert |multiset(SortBy(Digests(rows), Itself))| == |multiset(Digests(rows))|;
    forall c ensures c in Candidates(rows) <==> exists row <- rows :: row.candidate == c {
      ListedImage(rows, Candidates(rows), RowCandidate, c);
    }
    forall d ensures d in Digests(rows) <==> exists row <- rows :: row.digest == d {
      ListedImage(rows, Digests(rows), RowDigest, d);
    }
  }

  lemma AdmittedOk(envelope: Envelope, rows: seq<Measurements>, a: Admission)
    requires AdmittedBy(envelope, rows, a)
    ensures Assess(envelope, rows).Ok? && Assess(envelope, rows).value.Admitted?
  {
  }

  lemma ListedImage(rows: seq<Measurements>, image: seq<bytes>, f: Measurements -> bytes, x: bytes)
    requires |image| == |rows| && forall i :: 0 <= i < |rows| ==> image[i] == f(rows[i])
    ensures x in image <==> exists row <- rows :: f(row) == x
  {
    if row :| row in rows && f(row) == x {
      var i :| 0 <= i < |rows| && rows[i] == row;
      assert image[i] == x;
    }
  }

  /** The two matrices measured the same in every checked dimension. */
  ghost predicate SameMeasured(c: Config, rows: seq<Measurements>, other: seq<Measurements>)
  {
    forall n, value | Checked(c, n) :: Measured(rows, n, value) <==> Measured(other, n, value)
  }

  /** Two admissions under one acceptable envelope have the same basis exactly when plan and roster agree and
      the matrices measured the same values in all checked dimensions. */
  lemma SameBasisExactly(envelope: Envelope, rows: seq<Measurements>, a: Admission, other: seq<Measurements>, b: Admission)
    requires Acceptable(envelope.config) && AdmittedBy(envelope, rows, a) && AdmittedBy(envelope, other, b)
    ensures BasisOf(a) == BasisOf(b) <==>
      a.binding.plan == b.binding.plan && a.roster == b.roster && SameMeasured(envelope.config, rows, other)
  {
    hide AdmittedBy, Acceptable, Measured, Checked, Less, StrictlySorted;
    AdmissionExactly(envelope, rows, a);
    AdmissionExactly(envelope, other, b);
    BasisSorted(envelope, rows, a);
    BasisSorted(envelope, other, b);
    forall n, value
      ensures BasisValue(n, value) in a.basis <==> Checked(envelope.config, n) && Measured(rows, n, value)
      ensures BasisValue(n, value) in b.basis <==> Checked(envelope.config, n) && Measured(other, n, value)
    {
      BasisExactly(envelope, rows, a, n, value);
      BasisExactly(envelope, other, b, n, value);
    }
    if SameMeasured(envelope.config, rows, other) {
      forall x ensures x in a.basis <==> x in b.basis {
        assert x == BasisValue(x.name, x.canonical);
      }
      StrictlySortedUnique(a.basis, b.basis, BasisName);
    }
  }

  // ------------------------------------------------------------------- rejections

  /** What is reported for a dimension that varies. */
  ghost predicate ReasonFor(c: Config, rows: seq<Measurements>, reason: bytes)
  {
    || (exists n <- c.required :: !Agree(rows, n) && reason == Ascii("REQUIRED_EQUAL_VARIANCE:") + n)
    || (exists r <- c.rejected :: !Agree(rows, r.name) && reason == r.reason)
  }

  lemma {:induction false} ReasonsHold(rows: seq<Measurements>, checks: seq<Check>, reason: bytes)
    requires rows != [] && forall check <- checks :: check.name in rows[0].values
    ensures reason in Reasons(rows, checks) <==> exists check <- checks :: !Agree(rows, check.name) && check.reason == reason
  {
    hide CheckReasons, Agree;
    if checks != [] {
      var last := |checks| - 1;
      assert checks == checks[..last] + [checks[last]];
      ReasonsHold(rows, checks[..last], reason);
      ReasonsOfCheck(rows, checks[last]);
    }
  }

  /** On complete rows a rejection reports exactly the dimensions that vary. */
  lemma ReasonsExactly(envelope: Envelope, rows: seq<Measurements>, reason: bytes)
    requires CompleteRows(envelope.config, rows) && Assess(envelope, rows).Ok? && Assess(envelope, rows).value.Rejection?
    ensures reason in Assess(envelope, rows).value.reasons <==> ReasonFor(envelope.config, rows, reason)
  {
    hide FirstRefusal, SoundBinding, Reasons, AdmissionOf, Tokens, SortBy, Agree;
    var c := envelope.config;
    var checks := Checks(c);
    assert rows[0] in rows;
    ReasonsHold(rows, checks, reason);
    if check :| check in checks && !Agree(rows, check.name) && check.reason == reason {
      var i :| 0 <= i < |checks| && checks[i] == check;
      if i < |c.required| {
        assert c.required[i] in c.required;
      } else {
        assert c.rejected[i - |c.required|] in c.rejected;
      }
    }
    if n :| n in c.required && !Agree(rows, n) && reason == Ascii("REQUIRED_EQUAL_VARIANCE:") + n {
      var i :| 0 <= i < |c.required| && c.required[i] == n;
      assert checks[i] in checks;
    }
    if r :| r in c.rejected && !Agree(rows, r.name) && reason == r.reason {
      var i :| 0 <= i < |c.rejected| && c.rejected[i] == r;
      assert checks[|c.required| + i] in checks;
    }
  }
}
