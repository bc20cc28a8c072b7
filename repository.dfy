/**
 * The persistence layer (JobOfferRepository): the job_offers table held as a
 * sequence of rows in insertion order, together with the table's id sequence.
 * Each database statement either runs against the table or fails with the
 * driver's error; which of the two happens is the `Backend` argument.
 */
module Repository {
  import opened Results
  import opened Entities
  import opened Text
  import Decimal

  /** Whether the database runs a statement or fails it with a driver error. */
  datatype Backend = Available | Failing(driverError: string)

  /** The message of GetByCompany, GetAll and Search when the query fails. */
  const ListError: string := "Error happened during retrieving company's job offers"

  /** The message of GetById when the query fails or finds no row. */
  function FindError(id: int): string {
    "Error happened during retrieving job offer with id: " + Decimal.Render(id)
  }

  /**
   * Stands for the driver's error on an INSERT whose id is already taken; the
   * driver's actual text also names the violated constraint.
   */
  const DuplicateKeyError: string := "duplicate key value violates unique constraint"

  // ---------------------------------------------------------------------
  // Sequences of rows

  /** The elements of `s` that `keep` accepts, in their order. */
  function Filter<T(==,!new)>(s: seq<T>, keep: T -> bool): (r: seq<T>)
    ensures |r| <= |s|
    ensures forall x :: x in r <==> x in s && keep(x)
    ensures forall x :: multiset(r)[x] == if keep(x) then multiset(s)[x] else 0
    decreases |s|
  {
    if s == [] then []
    else
      assert s == [s[0]] + s[1..];
      (if keep(s[0]) then [s[0]] else []) + Filter(s[1..], keep)
  }

  /** A filter that accepts every element changes nothing. */
  lemma {:induction false} FilterKeepsAll<T(!new)>(s: seq<T>, keep: T -> bool)
    requires forall x :: x in s ==> keep(x)
    ensures Filter(s, keep) == s
    decreases |s|
  {
    if s != [] {
      FilterKeepsAll(s[1..], keep);
      assert s == [s[0]] + s[1..];
    }
  }

  /** Some row has this id. */
  predicate HasId(rows: seq<JobOffer>, id: int) {
    exists o :: o in rows && o.id == id
  }

  /** The id is the table's primary key: no two rows share one. */
  predicate UniqueIds(rows: seq<JobOffer>) {
    forall i, j :: 0 <= i < |rows| && 0 <= j < |rows| && rows[i].id == rows[j].id ==> i == j
  }

  lemma UniqueCons(x: JobOffer, t: seq<JobOffer>)
    requires UniqueIds(t) && !HasId(t, x.id)
    ensures UniqueIds([x] + t)
  {
    var s := [x] + t;
    forall k | 0 <= k < |t| ensures t[k].id != x.id {
      assert t[k] in t;
    }
    forall i, j | 0 <= i < |s| && 0 <= j < |s| && s[i].id == s[j].id ensures i == j {
      if i > 0 && j > 0 {
        assert s[i] == t[i - 1] && s[j] == t[j - 1];
      }
    }
  }

  /** Filtering a table keeps its ids unique. */
  lemma {:induction false} FilterUnique(s: seq<JobOffer>, keep: JobOffer -> bool)
    requires UniqueIds(s)
    ensures UniqueIds(Filter(s, keep))
    decreases |s|
  {
    if s != [] {
      var t := s[1..];
      assert UniqueIds(t) by {
        forall i, j | 0 <= i < |t| && 0 <= j < |t| && t[i].id == t[j].id ensures i == j {
          assert t[i] == s[i + 1] && t[j] == s[j + 1];
        }
      }
      FilterUnique(t, keep);
      if keep(s[0]) {
        assert !HasId(Filter(t, keep), s[0].id) by {
          forall o | o in Filter(t, keep) ensures o.id != s[0].id {
            var k :| 0 <= k < |t| && t[k] == o;
            assert s[k + 1] == o;
          }
        }
        UniqueCons(s[0], Filter(t, keep));
      }
    }
  }

  /** The position of the first row with this id. */
  function IndexOf(rows: seq<JobOffer>, id: int): (k: nat)
    requires HasId(rows, id)
    ensures k < |rows| && rows[k].id == id
    ensures forall j :: 0 <= j < k ==> rows[j].id != id
    decreases |rows|
  {
    if rows[0].id == id then 0
    else
      assert HasId(rows[1..], id) by {
        var o :| o in rows && o.id == id;
        assert rows == [rows[0]] + rows[1..];
      }
      1 + IndexOf(rows[1..], id)
  }

  /** The row `SELECT ... WHERE id = ?` finds, if any. */
  function FindById(rows: seq<JobOffer>, id: int): (r: Option<JobOffer>)
    ensures r.Some? <==> HasId(rows, id)
    ensures r.Some? ==> r.value in rows && r.value.id == id
  {
    if HasId(rows, id) then Some(rows[IndexOf(rows, id)]) else None
  }

  /** In a table with unique ids, looking up a row's id finds that row. */
  lemma FindUnique(rows: seq<JobOffer>, o: JobOffer)
    requires UniqueIds(rows) && o in rows
    ensures FindById(rows, o.id) == Some(o)
  {
    var i :| 0 <= i < |rows| && rows[i] == o;
    var k := IndexOf(rows, o.id);
    assert rows[k].id == rows[i].id;
  }

  /**
   * gorm's Save of a row with a non-zero id: UPDATE the row with that id and,
   * when no row was updated, INSERT the row as it is.
   */
  function Upsert(rows: seq<JobOffer>, o: JobOffer): (r: seq<JobOffer>)
    requires UniqueIds(rows)
    ensures UniqueIds(r)
    ensures forall x :: x in r <==> x == o || (x in rows && x.id != o.id)
    ensures HasId(rows, o.id) ==> |r| == |rows|
    ensures HasId(rows, o.id) ==> forall i :: 0 <= i < |rows| && rows[i].id != o.id ==> r[i] == rows[i]
    ensures !HasId(rows, o.id) ==> r == rows + [o]
  {
    if HasId(rows, o.id) then
      var k := IndexOf(rows, o.id);
      var r := rows[k := o];
      assert forall i :: 0 <= i < |rows| ==> r[i].id == rows[i].id;
      assert forall x :: x in rows && x.id != o.id ==> x in r by {
        forall x | x in rows && x.id != o.id ensures x in r {
          var i :| 0 <= i < |rows| && rows[i] == x;
          assert r[i] == x;
        }
      }
      assert forall x :: x in r ==> x == o || (x in rows && x.id != o.id) by {
        forall x | x in r ensures x == o || (x in rows && x.id != o.id) {
          var i :| 0 <= i < |r| && r[i] == x;
          if i != k {
            assert rows[i] == x && rows[i].id != rows[k].id;
          }
        }
      }
      r
    else
      var r := rows + [o];
      assert UniqueIds(r) by {
        forall i | 0 <= i < |rows| ensures r[i].id != o.id {
          assert rows[i] in rows;
        }
      }
      r
  }

  /** The rows left after `DELETE ... WHERE id = ?`. */
  function RemoveId(rows: seq<JobOffer>, id: int): (r: seq<JobOffer>)
    ensures forall x :: x in r <==> x in rows && x.id != id
    ensures !HasId(r, id)
    ensures !HasId(rows, id) ==> r == rows
    ensures UniqueIds(rows) ==> UniqueIds(r)
  {
    var keep := (o: JobOffer) => o.id != id;
    var r := Filter(rows, keep);
    assert UniqueIds(rows) ==> UniqueIds(r) by {
      if UniqueIds(rows) { FilterUnique(rows, keep); }
    }
    assert !HasId(rows, id) ==> r == rows by {
      if !HasId(rows, id) { FilterKeepsAll(rows, keep); }
    }
    r
  }

  /** An offer inserted under an id not yet used is found under that id, and every other lookup answers as before. */
  lemma AddedOfferIsFound(rows: seq<JobOffer>, o: JobOffer)
    requires UniqueIds(rows) && !HasId(rows, o.id)
    ensures FindById(rows + [o], o.id) == Some(o)
    ensures forall id :: id != o.id ==> FindById(rows + [o], id) == FindById(rows, id)
  {
    var after := Upsert(rows, o);
    FindUnique(after, o);
    forall id | id != o.id ensures FindById(after, id) == FindById(rows, id) {
      if HasId(rows, id) {
        var x := FindById(rows, id).value;
        FindUnique(after, x);
      }
    }
  }

  /** A saved offer replaces the row with its id (or is added) and is found under that id; other lookups answer as before. */
  lemma UpsertedOfferIsFound(rows: seq<JobOffer>, o: JobOffer)
    requires UniqueIds(rows)
    ensures FindById(Upsert(rows, o), o.id) == Some(o)
    ensures forall id :: id != o.id ==> FindById(Upsert(rows, o), id) == FindById(rows, id)
  {
    var after := Upsert(rows, o);
    FindUnique(after, o);
    forall id | id != o.id ensures FindById(after, id) == FindById(rows, id) {
      if HasId(rows, id) {
        var x := FindById(rows, id).value;
        FindUnique(after, x);
      }
    }
  }

  /** After a delete the id is not found any more, and every other lookup answers as before. */
  lemma DeletedOfferIsGone(rows: seq<JobOffer>, id: int)
    requires UniqueIds(rows)
    ensures FindById(RemoveId(rows, id), id) == None
    ensures forall k :: k != id ==> FindById(RemoveId(rows, id), k) == FindById(rows, k)
  {
    var after := RemoveId(rows, id);
    forall k | k != id ensures FindById(after, k) == FindById(rows, k) {
      if HasId(rows, k) {
        var x := FindById(rows, k).value;
        FindUnique(rows, x);
        FindUnique(after, x);
      }
    }
  }

  // ---------------------------------------------------------------------
  // The search rule

  /**
   * The search rule as it is meant: the lower-cased parameter occurs in the
   * lower-cased position, skills, daily activities description or job
   * description. The link is not searched.
   */
  predicate MentionedIn(o: JobOffer, param: string) {
    var q := Lower(param);
    || Contains(Lower(o.position), q)
    || Contains(Lower(o.skills), q)
    || Contains(Lower(o.dailyActivitiesDescription), q)
    || Contains(Lower(o.jobDescription), q)
  }

  /** The WHERE clause of the search query: the four lower-cased columns OR-ed, each compared with LIKE. */
  predicate LikeAnyColumn(o: JobOffer, pattern: string) {
    || Like(Lower(o.position), pattern)
    || Like(Lower(o.skills), pattern)
    || Like(Lower(o.dailyActivitiesDescription), pattern)
    || Like(Lower(o.jobDescription), pattern)
  }

  /** The pattern the source builds: the lower-cased parameter between two `%`, not escaped. */
  function SearchPatternAsWritten(param: string): string {
    "%" + Lower(param) + "%"
  }

  /** The pattern with LIKE's special characters of the parameter escaped. */
  function SearchPattern(param: string): string {
    ContainsPattern(Lower(param))
  }

  /** With the escaped pattern the query selects exactly the offers the parameter is mentioned in. */
  lemma SearchRule(param: string)
    ensures forall o :: LikeAnyColumn(o, SearchPattern(param)) <==> MentionedIn(o, param)
  {
    forall o ensures LikeAnyColumn(o, SearchPattern(param)) <==> MentionedIn(o, param) {
      var q := Lower(param);
      LikeContains(Lower(o.position), q);
      LikeContains(Lower(o.skills), q);
      LikeContains(Lower(o.dailyActivitiesDescription), q);
      LikeContains(Lower(o.jobDescription), q);
    }
  }

  /** Lower-casing keeps a text free of LIKE's special characters. */
  lemma LowerKeepsPlain(s: string)
    requires IsPlain(s)
    ensures IsPlain(Lower(s))
  {
    forall i | 0 <= i < |s| ensures !IsLikeSpecial(Lower(s)[i]) {
      assert !IsLikeSpecial(s[i]);
    }
  }

  /** On parameters without `%`, `_` and `\` the unescaped pattern selects the same offers. */
  lemma AsWrittenAgreesOnPlain(o: JobOffer, param: string)
    requires IsPlain(param)
    ensures LikeAnyColumn(o, SearchPatternAsWritten(param)) <==> MentionedIn(o, param)
  {
    LowerKeepsPlain(param);
    EscapePlain(Lower(param));
    assert SearchPatternAsWritten(param) == SearchPattern(param);
    SearchRule(param);
  }

  /** A character `c` occurs in every text that contains the one-character text `[c]`. */
  lemma ContainsOne(s: string, c: char)
    requires Contains(s, [c])
    ensures c in s
  {
    ContainsAt(s, [c]);
    var k :| OccursAt(s, [c], k);
    assert s[k] == s[k..k + 1][0];
  }

  /** Lower-casing introduces no `%`. */
  lemma LowerNoPercent(s: string)
    requires '%' !in s
    ensures '%' !in Lower(s)
  {
    forall i | 0 <= i < |s| ensures Lower(s)[i] != '%' {
      assert s[i] in s;
    }
  }

  /** The offer the integration tests store first. */
  const SampleOffer: JobOffer :=
    JobOffer(1, 1000, "QA", "test", "test test test", "test", "test link")

  /**
   * The unescaped pattern treats `%` in the parameter as a wildcard: searching
   * for "%" selects an offer none of whose searched columns contains a `%`.
   */
  lemma AsWrittenPercentIsWildcard()
    ensures LikeAnyColumn(SampleOffer, SearchPatternAsWritten("%"))
    ensures !MentionedIn(SampleOffer, "%")
  {
    var column := Lower(SampleOffer.position);
    assert Lower("%") == "%" by { assert LowerChar('%') == '%'; }
    assert SearchPatternAsWritten("%") == "%%%";
    assert "%%%"[1..] == "%%" && "%%"[1..] == "%";
    LikeAnything(column);
    var o := SampleOffer;
    forall s | s in [o.position, o.skills, o.dailyActivitiesDescription, o.jobDescription]
      ensures !Contains(Lower(s), "%")
    {
      LowerNoPercent(s);
      if Contains(Lower(s), "%") {
        ContainsOne(Lower(s), '%');
      }
    }
  }

  // ---------------------------------------------------------------------
  // The repository

  class JobOfferRepository {
    /** The rows of the job_offers table, in insertion order. */
    var rows: seq<JobOffer>
    /** The next value the table's id sequence hands out. */
    var nextId: int

    /** Ids are a primary key; the sequence starts at 1, so no row has id 0. */
    ghost predicate Valid()
      reads this
    {
      UniqueIds(rows) && nextId > 0 && !HasId(rows, 0)
    }

    /** An empty table whose id sequence has not been used. */
    constructor ()
      ensures Valid()
      ensures rows == [] && nextId == 1
    {
      rows := [];
      nextId := 1;
    }

    /**
     * Save: an offer with id 0 is inserted under the next value of the id
     * sequence (which is consumed even when that id is already taken, the
     * insert then failing); an offer with another id updates the row with
     * that id or is inserted as it is. The offer comes back with the id it
     * was stored under; on failure it comes back unchanged.
     */
    method Add(offer: JobOffer, db: Backend) returns (saved: JobOffer, err: Option<string>)
      requires Valid()
      modifies this
      ensures Valid()
      ensures saved.Fields() == offer.Fields()
      ensures err.None? ==> saved in rows && FindById(rows, saved.id) == Some(saved)
      ensures err.None? ==> forall o :: o in old(rows) && o.id != saved.id ==> o in rows
      ensures err.Some? ==> saved == offer && rows == old(rows)
      ensures db.Failing? ==> err == Some(db.driverError) && nextId == old(nextId)
      ensures db.Available? && offer.id == 0 ==>
        && nextId == old(nextId) + 1
        && (if HasId(old(rows), old(nextId))
            then err == Some(DuplicateKeyError)
            else err.None? && saved == offer.(id := old(nextId)) && rows == old(rows) + [saved])
      ensures db.Available? && offer.id != 0 ==>
        err.None? && saved == offer && rows == Upsert(old(rows), offer) && nextId == old(nextId)
    {
      if db.Failing? {
        return offer, Some(db.driverError);
      }
      if offer.id == 0 {
        var id := nextId;
        nextId := nextId + 1;
        if HasId(rows, id) {
          return offer, Some(DuplicateKeyError);
        }
        saved := offer.(id := id);
        AddedOfferIsFound(rows, saved);
        rows := Upsert(rows, saved);
        err := None;
      } else {
        saved := offer;
        UpsertedOfferIsFound(rows, saved);
        rows := Upsert(rows, saved);
        err := None;
      }
    }

    /** The rows of one company. */
    function GetByCompany(companyId: int, db: Backend): (r: Result<seq<JobOffer>>)
      reads this
      ensures r.Err? <==> db.Failing?
      ensures r.Err? ==> r.error == ListError
      ensures r.Ok? ==> forall o :: o in r.value <==> o in rows && o.companyId == companyId
      ensures r.Ok? ==> forall o :: multiset(r.value)[o] == if o.companyId == companyId then multiset(rows)[o] else 0
    {
      if db.Failing? then Err(ListError)
      else Ok(Filter(rows, (o: JobOffer) => o.companyId == companyId))
    }

    /** The row with this id; no row is an error, like a failed query. */
    function GetById(id: int, db: Backend): (r: Result<JobOffer>)
      reads this
      ensures r.Ok? <==> db.Available? && HasId(rows, id)
      ensures r.Err? ==> r.error == FindError(id)
      ensures r.Ok? ==> r.value in rows && r.value.id == id
    {
      if db.Failing? then Err(FindError(id))
      else match FindById(rows, id)
        case Some(o) => Ok(o)
        case None => Err(FindError(id))
    }

    /** Removes the row with this id; when there is none, nothing changes and nothing fails. */
    method Delete(id: int, db: Backend) returns (err: Option<string>)
      requires Valid()
      modifies this
      ensures Valid()
      ensures nextId == old(nextId)
      ensures db.Failing? ==> err == Some(db.driverError) && rows == old(rows)
      ensures db.Available? ==> err.None? && rows == RemoveId(old(rows), id)
      ensures db.Available? ==> forall o :: o in rows <==> o in old(rows) && o.id != id
      ensures db.Available? && !HasId(old(rows), id) ==> rows == old(rows)
    {
      if db.Failing? {
        return Some(db.driverError);
      }
      rows := RemoveId(rows, id);
      err := None;
    }

    /** Every row of the table. */
    function GetAll(db: Backend): (r: Result<seq<JobOffer>>)
      reads this
      ensures r.Err? <==> db.Failing?
      ensures r.Err? ==> r.error == ListError
      ensures r.Ok? ==> r.value == rows
    {
      if db.Failing? then Err(ListError) else Ok(rows)
    }

    /**
     * Search as the source writes it: the lower-cased parameter between two
     * `%`, unescaped. For a parameter without `%`, `_` and `\` this selects
     * exactly the rows the parameter is mentioned in, and what Search selects.
     */
    function SearchAsWritten(param: string, db: Backend): (r: Result<seq<JobOffer>>)
      reads this
      ensures r.Err? <==> db.Failing?
      ensures r.Err? ==> r.error == ListError
      ensures r.Ok? ==> forall o :: o in r.value <==> o in rows && LikeAnyColumn(o, SearchPatternAsWritten(param))
      ensures r.Ok? && IsPlain(param) ==> forall o :: o in r.value <==> o in rows && MentionedIn(o, param)
      ensures IsPlain(param) ==> r == Search(param, db)
    {
      assert IsPlain(param) ==> SearchPatternAsWritten(param) == SearchPattern(param) by {
        if IsPlain(param) {
          LowerKeepsPlain(param);
          EscapePlain(Lower(param));
        }
      }
      SearchRule(param);
      if db.Failing? then Err(ListError)
      else Ok(Matching(rows, SearchPatternAsWritten(param)))
    }

    /**
     * Search with the parameter escaped: the rows the parameter is mentioned
     * in (see MentionedIn), a case-insensitive substring search.
     */
    function Search(param: string, db: Backend): (r: Result<seq<JobOffer>>)
      reads this
      ensures r.Err? <==> db.Failing?
      ensures r.Err? ==> r.error == ListError
      ensures r.Ok? ==> forall o :: o in r.value <==> o in rows && MentionedIn(o, param)
      ensures r.Ok? ==> forall o :: multiset(r.value)[o] == if MentionedIn(o, param) then multiset(rows)[o] else 0
    {
      SearchRule(param);
      if db.Failing? then Err(ListError)
      else Ok(Matching(rows, SearchPattern(param)))
    }
  }

  /** The rows for which one of the four searched columns is LIKE `pattern`, in table order. */
  function Matching(rows: seq<JobOffer>, pattern: string): (r: seq<JobOffer>)
    ensures forall o :: o in r <==> o in rows && LikeAnyColumn(o, pattern)
    ensures forall o :: multiset(r)[o] == if LikeAnyColumn(o, pattern) then multiset(rows)[o] else 0
  {
    Filter(rows, (o: JobOffer) => LikeAnyColumn(o, pattern))
  }

  /** Searching is blind to case: the parameter and its lower-cased form select the same rows. */
  lemma SearchIgnoresCase(repo: JobOfferRepository, param: string, db: Backend)
    ensures repo.Search(param, db) == repo.Search(Lower(param), db)
  {
    LowerIdempotent(param);
  }

  /** The code's query is blind to case as well, for every parameter. */
  lemma SearchAsWrittenIgnoresCase(repo: JobOfferRepository, param: string, db: Backend)
    ensures repo.SearchAsWritten(param, db) == repo.SearchAsWritten(Lower(param), db)
  {
    LowerIdempotent(param);
  }

  /** The empty parameter (the pattern "%%") selects every row, as GetAll does. */
  lemma SearchEmptyIsGetAll(repo: JobOfferRepository, db: Backend)
    ensures repo.Search("", db) == repo.GetAll(db)
    ensures repo.SearchAsWritten("", db) == repo.GetAll(db)
  {
    var keep := (o: JobOffer) => LikeAnyColumn(o, SearchPattern(""));
    SearchRule("");
    forall o | o in repo.rows ensures keep(o) {
      assert IsPrefix(Lower(""), Lower(o.position));
    }
    FilterKeepsAll(repo.rows, keep);
    assert IsPlain("");
  }

  /** The rows of a company are the rows of GetAll with that company id. */
  lemma ByCompanyIsSubsetOfAll(repo: JobOfferRepository, companyId: int)
    ensures repo.GetByCompany(companyId, Available).Ok?
    ensures forall o :: o in repo.GetByCompany(companyId, Available).value <==>
      o in repo.GetAll(Available).value && o.companyId == companyId
  {
  }
}
