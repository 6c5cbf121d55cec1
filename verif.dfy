/**
 * The consistency check over scraped product records: which product ids have
 * no output folder under the augmented-images directory, and which ids occur
 * more than once in the products file.
 *
 * The products file and the directory listing arrive already read and parsed;
 * every operation here only computes from them, so neither input can change.
 */
module Verif {
  import opened Wrappers

  /** A product record of the products file; the check consults only its `id`. */
  datatype Product = Product(id: string)

  /** One entry of a directory listing: its name and whether it is a directory. */
  datatype DirEntry = DirEntry(name: string, isDirectory: bool)

  /**
   * The parsed products file. `NotProductList` is a file whose parsed value
   * `products.map(product => product.id)` throws on: a value that is not an
   * array, or an array holding `null`.
   */
  datatype ProductsFile = ProductList(products: seq<Product>) | NotProductList

  /**
   * Why the check produced no report: one of the two reads failed, with the
   * reason the reading layer gave, or the products file had the wrong shape.
   */
  datatype CheckError = ProductsUnreadable(reason: string) | FoldersUnreadable(reason: string) | MalformedProducts

  /** What the check reports: ids without a folder, and ids that occur more than once. */
  datatype Report = Report(missing: seq<string>, duplicates: seq<string>) {
    /** The condition for the "All product folders are present." message. */
    predicate AllFoldersPresent() { |missing| == 0 }
    /** The condition for the "No duplicate product IDs found." message. */
    predicate NoDuplicates() { |duplicates| == 0 }
  }

  /** No element of `s` occurs twice. */
  predicate Distinct(s: seq<string>) {
    forall i, j :: 0 <= i < j < |s| ==> s[i] != s[j]
  }

  /** `products.map(product => product.id)`. */
  function Ids(products: seq<Product>): (ids: seq<string>)
    ensures |ids| == |products|
    ensures forall i :: 0 <= i < |products| ==> ids[i] == products[i].id
  {
    seq(|products|, i requires 0 <= i < |products| => products[i].id)
  }

  // ---------------------------------------------------------------------------
  // The folder list: getAugmentedImagesFolders
  // ---------------------------------------------------------------------------

  /**
   * `files.filter(file => file.isDirectory()).map(file => file.name)`: the names
   * of the directory entries, in listing order; other entries are dropped.
   */
  function FolderNames(entries: seq<DirEntry>): (names: seq<string>)
    ensures |names| <= |entries|
  {
    if entries == [] then []
    else (if entries[0].isDirectory then [entries[0].name] else []) + FolderNames(entries[1..])
  }

  /**
   * Each name occurs in the folder list as often as the listing has a directory
   * of that name; entries that are not directories contribute nothing.
   */
  lemma {:induction false} FolderNamesCount(entries: seq<DirEntry>, n: string)
    ensures multiset(FolderNames(entries))[n] == multiset(entries)[DirEntry(n, true)]
    ensures n in FolderNames(entries) <==> DirEntry(n, true) in entries
  {
    if entries != [] {
      assert entries == [entries[0]] + entries[1..];
      FolderNamesCount(entries[1..], n);
    }
  }

  /** Listing order is kept: the folders of two listings put together are those of each, in turn. */
  lemma {:induction false} FolderNamesAppend(a: seq<DirEntry>, b: seq<DirEntry>)
    ensures FolderNames(a + b) == FolderNames(a) + FolderNames(b)
  {
    if a != [] {
      var head := if a[0].isDirectory then [a[0].name] else [];
      assert (a + b)[0] == a[0] && (a + b)[1..] == a[1..] + b;
      FolderNamesAppend(a[1..], b);
      calc {
        FolderNames(a + b);
        head + FolderNames(a[1..] + b);
        head + (FolderNames(a[1..]) + FolderNames(b));
        (head + FolderNames(a[1..])) + FolderNames(b);
      }
    } else {
      assert a + b == b;
    }
  }

  /** When every entry is a directory, the folder list is exactly the names, position by position. */
  lemma {:induction false} FolderNamesOfDirectories(entries: seq<DirEntry>)
    requires forall i :: 0 <= i < |entries| ==> entries[i].isDirectory
    ensures |FolderNames(entries)| == |entries|
    ensures forall i :: 0 <= i < |entries| ==> FolderNames(entries)[i] == entries[i].name
  {
    if entries != [] {
      FolderNamesOfDirectories(entries[1..]);
    }
  }

  // ---------------------------------------------------------------------------
  // The missing-folder filter of checkProducts
  // ---------------------------------------------------------------------------

  /**
   * `productIds.filter(id => !folders.includes(id))`: the ids, in input order
   * and with their multiplicity, that equal no folder name.
   */
  function MissingIds(ids: seq<string>, folders: seq<string>): (missing: seq<string>)
    ensures |missing| <= |ids|
  {
    if ids == [] then []
    else (if ids[0] in folders then [] else [ids[0]]) + MissingIds(ids[1..], folders)
  }

  /** A missing id occurs as often as in the input; an id that names a folder does not occur. */
  lemma {:induction false} MissingIdsCount(ids: seq<string>, folders: seq<string>, x: string)
    ensures multiset(MissingIds(ids, folders))[x] == if x in folders then 0 else multiset(ids)[x]
    ensures x in MissingIds(ids, folders) <==> x in ids && x !in folders
  {
    if ids != [] {
      assert ids == [ids[0]] + ids[1..];
      MissingIdsCount(ids[1..], folders, x);
    }
  }

  /** Nothing is missing exactly when every id names a folder. */
  lemma {:induction false} MissingIdsEmpty(ids: seq<string>, folders: seq<string>)
    ensures MissingIds(ids, folders) == [] <==> forall i :: 0 <= i < |ids| ==> ids[i] in folders
  {
    if ids != [] {
      MissingIdsEmpty(ids[1..], folders);
      assert forall i :: 1 <= i < |ids| ==> ids[1..][i - 1] == ids[i];
    }
  }

  /** Input order is kept: the filter distributes over concatenation of the id list. */
  lemma {:induction false} MissingIdsAppend(a: seq<string>, b: seq<string>, folders: seq<string>)
    ensures MissingIds(a + b, folders) == MissingIds(a, folders) + MissingIds(b, folders)
  {
    if a != [] {
      var head := if a[0] in folders then [] else [a[0]];
      assert (a + b)[0] == a[0] && (a + b)[1..] == a[1..] + b;
      MissingIdsAppend(a[1..], b, folders);
      calc {
        MissingIds(a + b, folders);
        head + MissingIds(a[1..] + b, folders);
        head + (MissingIds(a[1..], folders) + MissingIds(b, folders));
        (head + MissingIds(a[1..], folders)) + MissingIds(b, folders);
      }
    } else {
      assert a + b == b;
    }
  }

  // ---------------------------------------------------------------------------
  // findDuplicateIds
  // ---------------------------------------------------------------------------

  /** `s.indexOf(x)`: the first position of `x` in `s`, or -1 when `x` does not occur. */
  function IndexOf(s: seq<string>, x: string): (r: int)
    ensures -1 <= r < |s|
    ensures r == -1 <==> x !in s
    ensures r >= 0 ==> s[r] == x && x !in s[..r]
  {
    if s == [] then -1
    else if s[0] == x then 0
    else
      var k := IndexOf(s[1..], x);
      assert s == [s[0]] + s[1..];
      if k == -1 then -1
      else
        assert s[..k + 1] == [s[0]] + s[1..][..k];
        k + 1
  }

  /** Position `k` fails the test `ids.indexOf(id) !== index` exactly when it is the first occurrence of its id. */
  lemma IndexOfIsFirst(s: seq<string>, k: nat)
    requires k < |s|
    ensures IndexOf(s, s[k]) == k <==> s[k] !in s[..k]
  {
    var r := IndexOf(s, s[k]);
    assert r < k ==> s[..k][r] == s[k];
  }

  /**
   * `ids.filter((id, index) => ids.indexOf(id) !== index)`, over the first `n`
   * positions of `ids`.
   */
  function LaterOccurrences(ids: seq<string>, n: nat): (r: seq<string>)
    requires n <= |ids|
    ensures |r| <= n
  {
    if n == 0 then []
    else LaterOccurrences(ids, n - 1) + (if IndexOf(ids, ids[n - 1]) != n - 1 then [ids[n - 1]] else [])
  }

  /** The filter keeps, over the first `n` positions, exactly the ids that occur there at least twice. */
  lemma {:induction false} LaterOccurrencesMember(ids: seq<string>, n: nat, x: string)
    requires n <= |ids|
    ensures x in LaterOccurrences(ids, n) <==> multiset(ids[..n])[x] >= 2
  {
    if n > 0 {
      var k := n - 1;
      LaterOccurrencesMember(ids, k, x);
      IndexOfIsFirst(ids, k);
      assert ids[..n] == ids[..k] + [ids[k]];
    }
  }

  /** The filter over the first `n` positions depends only on those positions. */
  lemma {:induction false} LaterOccurrencesPrefix(ids: seq<string>, n: nat, m: nat)
    requires m <= n <= |ids|
    ensures LaterOccurrences(ids, m) == LaterOccurrences(ids[..n], m)
  {
    if m > 0 {
      var k := m - 1;
      LaterOccurrencesPrefix(ids, n, k);
      IndexOfIsFirst(ids, k);
      IndexOfIsFirst(ids[..n], k);
      assert ids[..n][..k] == ids[..k];
    }
  }

  /** `[...new Set(s)]`: a Set keeps its elements in order of first insertion. */
  function Dedup(s: seq<string>): (r: seq<string>)
    ensures |r| <= |s|
  {
    if s == [] then []
    else
      var d := Dedup(s[..|s| - 1]);
      if s[|s| - 1] in d then d else d + [s[|s| - 1]]
  }

  /** The Set holds the same elements as the sequence it was built from, each once. */
  lemma {:induction false} DedupSpec(s: seq<string>)
    ensures Distinct(Dedup(s))
    ensures forall x :: x in Dedup(s) <==> x in s
  {
    if s != [] {
      var init, x := s[..|s| - 1], s[|s| - 1];
      assert s == init + [x];
      DedupSpec(init);
    }
  }

  /** `findDuplicateIds`. */
  function FindDuplicateIds(products: seq<Product>): (r: seq<string>)
    ensures |r| <= |products|
  {
    var ids := Ids(products);
    Dedup(LaterOccurrences(ids, |ids|))
  }

  /**
   * The result holds each id that occurs more than once among the products,
   * each exactly once, and nothing else.
   */
  lemma FindDuplicateIdsSpec(products: seq<Product>)
    ensures Distinct(FindDuplicateIds(products))
    ensures forall x :: x in FindDuplicateIds(products) <==> multiset(Ids(products))[x] >= 2
    ensures forall x :: x in FindDuplicateIds(products) ==> x in Ids(products)
  {
    var ids := Ids(products);
    assert ids[..|ids|] == ids;
    DedupSpec(LaterOccurrences(ids, |ids|));
    forall x ensures x in FindDuplicateIds(products) <==> multiset(ids)[x] >= 2 {
      LaterOccurrencesMember(ids, |ids|, x);
    }
  }

  /**
   * One more product extends the result by its id exactly when that id had
   * occurred once before, i.e. when this is the id's second occurrence.
   */
  lemma {:induction false} FindDuplicateIdsStep(products: seq<Product>, p: Product)
    ensures FindDuplicateIds(products + [p]) ==
      FindDuplicateIds(products) + (if multiset(Ids(products))[p.id] == 1 then [p.id] else [])
  {
    var ids, ids' := Ids(products), Ids(products + [p]);
    var n := |ids|;
    assert ids' == ids + [p.id];
    assert ids'[..n] == ids;
    LaterOccurrencesPrefix(ids', n, n);
    IndexOfIsFirst(ids', n);
    var t := LaterOccurrences(ids, n);
    assert LaterOccurrences(ids', n + 1) == t + (if p.id in ids then [p.id] else []);
    if p.id in ids {
      var s := t + [p.id];
      assert s[..|s| - 1] == t;
      assert ids[..n] == ids;
      DedupSpec(t);
      LaterOccurrencesMember(ids, n, p.id);
    } else {
      assert t + [] == t;
    }
  }

  /** The result for a prefix of the products is a prefix of the result. */
  lemma {:induction false} FindDuplicateIdsPrefix(products: seq<Product>, n: nat)
    requires n <= |products|
    ensures FindDuplicateIds(products[..n]) <= FindDuplicateIds(products)
    decreases |products| - n
  {
    if n < |products| {
      var init, last := products[..|products| - 1], products[|products| - 1];
      assert init[..n] == products[..n];
      assert products == init + [last];
      FindDuplicateIdsPrefix(init, n);
      FindDuplicateIdsStep(init, last);
    } else {
      assert products[..n] == products;
    }
  }

  /**
   * Ids are reported in the order of their second occurrences: once the
   * products up to some point hold a later-reported id twice, they hold every
   * earlier-reported id twice as well.
   */
  lemma FindDuplicateIdsOrder(products: seq<Product>, n: nat, i: nat, j: nat)
    requires n <= |products|
    requires i < j < |FindDuplicateIds(products)|
    requires multiset(Ids(products[..n]))[FindDuplicateIds(products)[j]] >= 2
    ensures multiset(Ids(products[..n]))[FindDuplicateIds(products)[i]] >= 2
  {
    var r, q := FindDuplicateIds(products), FindDuplicateIds(products[..n]);
    FindDuplicateIdsPrefix(products, n);
    FindDuplicateIdsSpec(products);
    FindDuplicateIdsSpec(products[..n]);
    assert r[j] in q;
    var k :| 0 <= k < |q| && q[k] == r[j];
    assert r[k] == r[j];
    assert q[i] == r[i];
  }

  /** `[x, y, x]` yields `[x]`, whether or not `y` equals `x`. */
  lemma FindDuplicateIdsExample(x: string, y: string)
    ensures FindDuplicateIds([Product(x), Product(y), Product(x)]) == [x]
  {
    var p0: seq<Product> := [];
    var p1, p2, p3 := p0 + [Product(x)], p0 + [Product(x)] + [Product(y)], p0 + [Product(x)] + [Product(y)] + [Product(x)];
    assert FindDuplicateIds(p0) == [];
    FindDuplicateIdsStep(p0, Product(x));
    assert FindDuplicateIds(p1) == [];
    FindDuplicateIdsStep(p1, Product(y));
    assert Ids(p1) == [x];
    var d2 := FindDuplicateIds(p2);
    assert d2 == if x == y then [x] else [];
    FindDuplicateIdsStep(p2, Product(x));
    assert Ids(p2) == [x, y];
    assert multiset([x, y])[x] == if x == y then 2 else 1;
    assert p3 == [Product(x), Product(y), Product(x)];
  }

  /** A distinct sequence holds each element at most once. */
  lemma {:induction false} DistinctCountsAtMostOne(s: seq<string>, x: string)
    requires Distinct(s)
    ensures multiset(s)[x] <= 1
  {
    if s != [] {
      assert s == [s[0]] + s[1..];
      assert Distinct(s[1..]) by {
        forall i, j | 0 <= i < j < |s[1..]| ensures s[1..][i] != s[1..][j] {
          assert s[1..][i] == s[i + 1] && s[1..][j] == s[j + 1];
        }
      }
      DistinctCountsAtMostOne(s[1..], x);
      if x == s[0] {
        assert x !in s[1..] by {
          forall j | 0 <= j < |s[1..]| ensures s[1..][j] != s[0] {
            assert s[1..][j] == s[j + 1];
          }
        }
      }
    }
  }

  /** Two positions holding the same element make it occur at least twice. */
  lemma TwoPositionsCountTwice(s: seq<string>, i: nat, j: nat)
    requires i < j < |s| && s[i] == s[j]
    ensures multiset(s)[s[i]] >= 2
  {
    assert s == s[..j] + s[j..];
    assert s[..j][i] == s[i];
    assert s[j..][0] == s[j];
  }

  /** No duplicate is reported exactly when all product ids are distinct. */
  lemma NoDuplicatesIffDistinct(products: seq<Product>)
    ensures FindDuplicateIds(products) == [] <==> Distinct(Ids(products))
  {
    var ids := Ids(products);
    FindDuplicateIdsSpec(products);
    if Distinct(ids) {
      if FindDuplicateIds(products) != [] {
        var x := FindDuplicateIds(products)[0];
        DistinctCountsAtMostOne(ids, x);
      }
    } else {
      var i, j :| 0 <= i < j < |ids| && ids[i] == ids[j];
      TwoPositionsCountTwice(ids, i, j);
      assert ids[i] in FindDuplicateIds(products);
    }
  }

  // ---------------------------------------------------------------------------
  // checkProducts
  // ---------------------------------------------------------------------------

  /**
   * `checkProducts` once both files have been read: the products file first,
   * then the folder listing, and only then are the product ids taken; the first
   * of these steps to fail is reported instead of a result.
   */
  function CheckProducts(file: Result<ProductsFile, string>, listing: Result<seq<DirEntry>, string>)
    : (r: Result<Report, CheckError>)
    ensures file.Failure? ==> r == Failure(ProductsUnreadable(file.error))
    ensures file.Success? && listing.Failure? ==> r == Failure(FoldersUnreadable(listing.error))
    ensures file.Success? && file.value.NotProductList? && listing.Success? ==> r == Failure(MalformedProducts)
    ensures r.Success? <==> file.Success? && file.value.ProductList? && listing.Success?
    ensures r.Success? ==>
      r.value == Report(MissingIds(Ids(file.value.products), FolderNames(listing.value)), FindDuplicateIds(file.value.products))
    ensures r.Success? ==> forall x :: x in r.value.missing <==>
      x in Ids(file.value.products) && DirEntry(x, true) !in listing.value
    ensures r.Success? ==> (r.value.AllFoldersPresent() <==>
      forall i :: 0 <= i < |file.value.products| ==> DirEntry(file.value.products[i].id, true) in listing.value)
    ensures r.Success? ==> forall x :: x in r.value.duplicates <==> multiset(Ids(file.value.products))[x] >= 2
  {
    match file
    case Failure(e) => Failure(ProductsUnreadable(e))
    case Success(parsed) =>
      match listing
      case Failure(e) => Failure(FoldersUnreadable(e))
      case Success(entries) =>
        match parsed
        case NotProductList => Failure(MalformedProducts)
        case ProductList(ps) =>
          var ids, folders := Ids(ps), FolderNames(entries);
          var missing := MissingIds(ids, folders);
          assert forall x :: x in missing <==> x in ids && DirEntry(x, true) !in entries by {
            forall x ensures x in missing <==> x in ids && DirEntry(x, true) !in entries {
              MissingIdsCount(ids, folders, x);
              FolderNamesCount(entries, x);
            }
          }
          assert missing == [] <==> forall i :: 0 <= i < |ps| ==> DirEntry(ps[i].id, true) in entries by {
            MissingIdsEmpty(ids, folders);
            forall i | 0 <= i < |ps| ensures ids[i] in folders <==> DirEntry(ps[i].id, true) in entries {
              FolderNamesCount(entries, ids[i]);
            }
          }
          FindDuplicateIdsSpec(ps);
          Success(Report(missing, FindDuplicateIds(ps)))
  }

  /** The duplicate report does not depend on the folder listing. */
  lemma DuplicatesIgnoreFolders(products: seq<Product>, listing1: seq<DirEntry>, listing2: seq<DirEntry>)
    ensures CheckProducts(Success(ProductList(products)), Success(listing1)).Success?
    ensures CheckProducts(Success(ProductList(products)), Success(listing1)).value.duplicates ==
      CheckProducts(Success(ProductList(products)), Success(listing2)).value.duplicates
  {
  }

  /** Two products `a` and `b` and the one folder `a`: `b` is missing and nothing is duplicated. */
  lemma CheckProductsExample()
    ensures CheckProducts(Success(ProductList([Product("a"), Product("b")])), Success([DirEntry("a", true)])) ==
      Success(Report(["b"], []))
  {
    var ps := [Product("a"), Product("b")];
    assert Ids(ps) == ["a", "b"];
    assert FolderNames([DirEntry("a", true)]) == ["a"];
    assert "a" != "b";
    assert ["a", "b"][1..] == ["b"] && ["b"][1..] == [];
    assert MissingIds(["a", "b"], ["a"]) == ["b"];
    assert Distinct(["a", "b"]);
    NoDuplicatesIffDistinct(ps);
  }
}
