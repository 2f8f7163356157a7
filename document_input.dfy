/** The document picker of the chat page (`DocumentInput`): the category
    options, the documents offered for the chosen category, and the category
    reset. A missing document list is `None`. */
module DocumentInput {
  import opened Strings

  /** The fields of an indexed document's metadata the picker reads. */
  datatype DocumentMetaData = DocumentMetaData(id: string, title: string, category: string, filename: string, summary: string)

  /** A dropdown option: its key and its shown text. */
  datatype DropdownOption = DropdownOption(key: string, text: string)

  /** The category shown before one is chosen, and after it is cleared. */
  const DefaultCategory: DropdownOption := DropdownOption("Default", "Select Category")

  // ---------------------------------------------------------------------------
  // Category options

  /** `findIndex` for equal key and text: the first position holding `x`, or
      -1 when there is none. */
  function FirstIndex(s: seq<DropdownOption>, x: DropdownOption): (r: int)
    ensures -1 <= r < |s|
    ensures r >= 0 ==> s[r] == x && forall k :: 0 <= k < r ==> s[k] != x
    ensures r == -1 <==> x !in s
    decreases |s|
  {
    if s == [] then -1
    else if s[0] == x then 0
    else
      var r := FirstIndex(s[1..], x);
      assert forall k :: 1 <= k < |s| ==> s[k] == s[1..][k - 1];
      if r == -1 then -1 else r + 1
  }

  /** The options of `opts[..n]` that sit at their first occurrence in `opts`,
      in order: a value appears once, at the place it first appeared. */
  function FirstOccurrences(opts: seq<DropdownOption>, n: nat): (r: seq<DropdownOption>)
    requires n <= |opts|
    ensures |r| <= n
    ensures forall x :: x in r <==> x in opts[..n]
    ensures forall x :: x in r ==> 0 <= FirstIndex(opts, x) < n
    ensures forall i, j :: 0 <= i < j < |r| ==> FirstIndex(opts, r[i]) < FirstIndex(opts, r[j])
    decreases n
  {
    if n == 0 then []
    else
      var prior := FirstOccurrences(opts, n - 1);
      assert opts[..n] == opts[..n - 1] + [opts[n - 1]];
      if FirstIndex(opts, opts[n - 1]) == n - 1 then prior + [opts[n - 1]]
      else
        assert opts[FirstIndex(opts, opts[n - 1])] == opts[n - 1];
        prior
  }

  function CategoryOption(d: DocumentMetaData): DropdownOption
  {
    DropdownOption(d.category, d.category)
  }

  /** The option of every document, in document order. */
  function AllCategoryOptions(ds: seq<DocumentMetaData>): (opts: seq<DropdownOption>)
    ensures |opts| == |ds| && forall k :: 0 <= k < |ds| ==> opts[k] == CategoryOption(ds[k])
  {
    seq(|ds|, k requires 0 <= k < |ds| => CategoryOption(ds[k]))
  }

  /** `categoryOptions`: one option per document, keyed and labelled by its
      category, keeping each (key, text) pair at its first occurrence; none
      without a document list. */
  function CategoryOptions(docs: Option<seq<DocumentMetaData>>): (r: seq<DropdownOption>)
    ensures docs.None? ==> r == []
    ensures docs.Some? ==> |r| <= |docs.value|
  {
    match docs
    case None => []
    case Some(ds) => FirstOccurrences(AllCategoryOptions(ds), |ds|)
  }

  /** Every document's category is offered, and nothing else is. */
  lemma CategoryOptionsAreTheCategories(ds: seq<DocumentMetaData>)
    ensures var r := CategoryOptions(Some(ds));
      && (forall k :: 0 <= k < |ds| ==> CategoryOption(ds[k]) in r)
      && (forall o :: o in r ==> exists k :: 0 <= k < |ds| && o == CategoryOption(ds[k]))
  {
    var opts := AllCategoryOptions(ds);
    var r := FirstOccurrences(opts, |opts|);
    assert opts[..|opts|] == opts;
    forall k | 0 <= k < |ds| ensures CategoryOption(ds[k]) in r {
      assert opts[k] in opts;
    }
    forall o | o in r ensures exists k :: 0 <= k < |ds| && o == CategoryOption(ds[k]) {
      var k := FirstIndex(opts, o);
      assert o == CategoryOption(ds[k]);
    }
  }

  /** No option appears twice, and options come in the order their
      categories first appear among the documents. */
  lemma CategoryOptionsFirstOccurrenceOrder(ds: seq<DocumentMetaData>)
    ensures var r := CategoryOptions(Some(ds));
      && (forall i, j :: 0 <= i < j < |r| ==> r[i] != r[j])
      && (forall i, j :: 0 <= i < j < |r| ==> FirstCategory(ds, r[i].text) < FirstCategory(ds, r[j].text))
  {
    var opts := AllCategoryOptions(ds);
    var r := FirstOccurrences(opts, |opts|);
    assert opts[..|opts|] == opts;
    forall i | 0 <= i < |r| ensures FirstCategory(ds, r[i].text) == FirstIndex(opts, r[i]) {
      FirstCategoryIsFirstIndex(ds, opts, r[i]);
    }
  }

  /** The position of the first document of category `c`, or -1. */
  function FirstCategory(ds: seq<DocumentMetaData>, c: string): (r: int)
    ensures -1 <= r < |ds|
    ensures r >= 0 ==> ds[r].category == c && forall k :: 0 <= k < r ==> ds[k].category != c
    ensures r == -1 ==> forall k :: 0 <= k < |ds| ==> ds[k].category != c
    decreases |ds|
  {
    if ds == [] then -1
    else if ds[0].category == c then 0
    else
      var r := FirstCategory(ds[1..], c);
      assert forall k :: 1 <= k < |ds| ==> ds[k] == ds[1..][k - 1];
      if r == -1 then -1 else r + 1
  }

  lemma FirstCategoryIsFirstIndex(ds: seq<DocumentMetaData>, opts: seq<DropdownOption>, o: DropdownOption)
    requires |opts| == |ds| && forall k :: 0 <= k < |ds| ==> opts[k] == CategoryOption(ds[k])
    requires o in opts
    ensures FirstCategory(ds, o.text) == FirstIndex(opts, o)
  {
    var i := FirstIndex(opts, o);
    var j := FirstCategory(ds, o.text);
    assert ds[i].category == o.text;
    assert opts[j] == o;
  }

  // ---------------------------------------------------------------------------
  // Document options

  /** The option of one document: keyed by its id, shown as
      "title - (filename)". */
  function DocumentOption(d: DocumentMetaData): (o: DropdownOption)
    ensures o.key == d.id && StartsWith(o.text, d.title) && EndsWith(o.text, "(" + d.filename + ")")
  {
    var o := DropdownOption(d.id, d.title + " - (" + d.filename + ")");
    assert o.text[..|d.title|] == d.title;
    assert o.text[|o.text| - |d.filename| - 2..] == "(" + d.filename + ")";
    o
  }

  /** The options of the documents of category `c`, in order. */
  function OptionsOf(ds: seq<DocumentMetaData>, c: string): (r: seq<DropdownOption>)
    ensures |r| <= |ds|
    ensures forall o :: o in r ==> exists k :: 0 <= k < |ds| && ds[k].category == c && o == DocumentOption(ds[k])
    ensures forall k :: 0 <= k < |ds| && ds[k].category == c ==> DocumentOption(ds[k]) in r
    decreases |ds|
  {
    if ds == [] then []
    else
      var n := |ds| - 1;
      var prior := OptionsOf(ds[..n], c);
      assert forall k :: 0 <= k < n ==> ds[..n][k] == ds[k];
      if ds[n].category == c then prior + [DocumentOption(ds[n])] else prior
  }

  lemma OptionsOfSnoc(ds: seq<DocumentMetaData>, d: DocumentMetaData, c: string)
    ensures OptionsOf(ds + [d], c) == OptionsOf(ds, c) + (if d.category == c then [DocumentOption(d)] else [])
  {
    assert (ds + [d])[..|ds|] == ds;
  }

  /** The options of two lists are the options of the first followed by those
      of the second: the documents keep their order. */
  lemma {:induction false} OptionsOfAppend(a: seq<DocumentMetaData>, b: seq<DocumentMetaData>, c: string)
    ensures OptionsOf(a + b, c) == OptionsOf(a, c) + OptionsOf(b, c)
    decreases |b|
  {
    if b == [] {
      assert a + b == a;
    } else {
      var n := |b| - 1;
      assert a + b == (a + b[..n]) + [b[n]];
      assert b == b[..n] + [b[n]];
      OptionsOfSnoc(a + b[..n], b[n], c);
      OptionsOfSnoc(b[..n], b[n], c);
      OptionsOfAppend(a, b[..n], c);
    }
  }

  lemma OptionsOfOne(d: DocumentMetaData, c: string)
    ensures OptionsOf([d], c) == if d.category == c then [DocumentOption(d)] else []
  {
    assert [d][..0] == [];
  }

  /** `documentOptions`: the documents whose category is the chosen
      category's text; none without a document list. */
  function DocumentOptions(docs: Option<seq<DocumentMetaData>>, category: DropdownOption): Option<seq<DropdownOption>>
  {
    match docs
    case None => None
    case Some(ds) => Some(OptionsOf(ds, category.text))
  }

  /** `find`: the first document with the given id. */
  function FindById(ds: seq<DocumentMetaData>, id: string): (r: Option<DocumentMetaData>)
    ensures r.Some? ==> r.value in ds && r.value.id == id
    ensures r.None? <==> forall k :: 0 <= k < |ds| ==> ds[k].id != id
    decreases |ds|
  {
    if ds == [] then None
    else if ds[0].id == id then Some(ds[0])
    else
      assert forall k :: 1 <= k < |ds| ==> ds[k] == ds[1..][k - 1];
      FindById(ds[1..], id)
  }

  /** Choosing an offered document always finds it (the non-null assertion on
      `find` holds), and with distinct ids finds exactly the document offered. */
  lemma ChosenDocumentIsFound(ds: seq<DocumentMetaData>, category: DropdownOption, o: DropdownOption)
    requires o in OptionsOf(ds, category.text)
    ensures FindById(ds, o.key).Some?
    ensures (forall i, j :: 0 <= i < j < |ds| ==> ds[i].id != ds[j].id) ==>
              FindById(ds, o.key).value.category == category.text && DocumentOption(FindById(ds, o.key).value) == o
  {
    var k :| 0 <= k < |ds| && ds[k].category == category.text && o == DocumentOption(ds[k]);
    assert ds[k].id == o.key;
    if forall i, j :: 0 <= i < j < |ds| ==> ds[i].id != ds[j].id {
      var d := FindById(ds, o.key).value;
      var m :| 0 <= m < |ds| && ds[m] == d;
      assert m == k;
    }
  }

  // ---------------------------------------------------------------------------
  // Category selection

  /** The category after a change: the chosen option, or the default when the
      choice is cleared. */
  function ChangeCategory(option: Option<DropdownOption>): DropdownOption
  {
    match option
    case Some(o) => o
    case None => DefaultCategory
  }

  predicate DocumentDropdownDisabled(category: DropdownOption)
  {
    category.key == "Default"
  }

  /** Clearing the category disables the document dropdown; choosing a
      category enables it unless the category is itself named "Default". */
  lemma CategorySelectionRule(ds: seq<DocumentMetaData>, option: Option<DropdownOption>)
    requires option.Some? ==> option.value in CategoryOptions(Some(ds))
    ensures option.None? ==> ChangeCategory(option) == DefaultCategory && DocumentDropdownDisabled(ChangeCategory(option))
    ensures option.Some? ==> (DocumentDropdownDisabled(ChangeCategory(option)) <==> option.value.text == "Default")
  {
    if option.Some? {
      CategoryOptionsAreTheCategories(ds);
    }
  }
}
