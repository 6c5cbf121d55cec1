# Consistency check and link extraction of the product scraper

This project models, in Dafny, the two pieces of logic of the product-image
scraper that can be stated apart from the browser, the network and the file
system:

- **The consistency check** (`verif.js`). The check takes the product records
  and the listing of the augmented-images directory. It reports the product
  ids that have no output folder of the same name. It also reports the ids
  that occur more than once among the records. Module `Verif` (`verif.dfy`).
- **The link extraction** (`duplicate.js`). This takes the `link` field of
  every scraped record, in record order, and drops absent and empty links.
  Module `Duplicate` (`duplicate.dfy`).

Both are pure computations over already-parsed inputs. The file reads and the
JSON parse become `Result` values (module `Wrappers`, `wrappers.dfy`). A
record is a datatype with only the field the code reads: `Product(id)` for the
check, `Entity(link)` for the extraction. A directory entry is a
`DirEntry(name, isDirectory)`. Values are immutable, so neither operation can
modify the records or the folder listing.

`findDuplicateIds` is modelled step by step, like the code:
- `IndexOf` is JavaScript's `indexOf`, returning -1 when the id is absent.
- `LaterOccurrences` is the filter that keeps each position whose id does not
  sit at its `indexOf` position.
- `Dedup` is `[...new Set(…)]`, which keeps first occurrences in order.

The properties are then proved about that composition: the result holds
exactly the repeated ids, each of them once, ordered by their second
occurrence.

## Model

| member | source | states |
|---|---|---|
| `Verif.FolderNames` | verif.js:18-20 | the folder list is never longer than the directory listing |
| `Verif.FolderNamesCount` | verif.js:18-20 | each name occurs in the folder list as often as the listing has a directory of that name; entries that are not directories contribute nothing |
| `Verif.FolderNamesAppend` | verif.js:18-20 | listing order is kept: the folder list of two listings put together is the first list followed by the second |
| `Verif.FolderNamesOfDirectories` | verif.js:18-20 | when every entry is a directory, the folder list is the entry names, position by position |
| `Verif.MissingIds` | verif.js:42 | the missing list is never longer than the id list |
| `Verif.MissingIdsCount` | verif.js:42 | an id that names no folder is missing as many times as it occurs among the products; an id that names a folder is not missing |
| `Verif.MissingIdsEmpty` | verif.js:42-49 | the missing list is empty exactly when every product id names a folder (the "All product folders are present." branch) |
| `Verif.MissingIdsAppend` | verif.js:42 | input order is kept: the filter distributes over concatenation of the id list |
| `Verif.Ids` | verif.js:39 | the id list has one entry per product, the product's id, at the product's position |
| `Verif.IndexOf` | verif.js:29 | `indexOf` gives -1 exactly when the id is absent, and otherwise a position holding the id with no earlier position holding it |
| `Verif.IndexOfIsFirst` | verif.js:29 | a position passes the test `ids.indexOf(id) !== index` exactly when its id also occurs at an earlier position |
| `Verif.LaterOccurrences` | verif.js:29 | the index filter over the first `n` positions keeps at most `n` ids; what it keeps is stated by `Verif.LaterOccurrencesMember` |
| `Verif.LaterOccurrencesMember` | verif.js:29 | the filtered list holds exactly the ids that occur at least twice among the positions considered |
| `Verif.LaterOccurrencesPrefix` | verif.js:29 | the filter over the first positions depends only on those positions |
| `Verif.Dedup` | verif.js:30 | the `Set` pass never lengthens its input; distinctness and membership are stated by `Verif.DedupSpec` |
| `Verif.DedupSpec` | verif.js:30 | passing through a `Set` leaves each element once and keeps exactly the elements of the input |
| `Verif.FindDuplicateIds` | verif.js:27-31 | the duplicate list is no longer than the product list; what it holds and in which order is stated by the four lemmas below |
| `Verif.FindDuplicateIdsSpec` | verif.js:27-31 | the result has no repeated id, contains exactly the ids that occur more than once among the products, and is a subset of the product ids |
| `Verif.FindDuplicateIdsStep` | verif.js:28-30 | appending one product extends the result by its id exactly when that id occurred once before, so each id is reported at its second occurrence |
| `Verif.FindDuplicateIdsPrefix` | verif.js:28-30 | the result for a prefix of the products is a prefix of the result for all of them |
| `Verif.FindDuplicateIdsOrder` | verif.js:29-30 | ids appear in the order of their second occurrences: once a prefix of the products holds a later-reported id twice, it holds every earlier-reported id twice |
| `Verif.FindDuplicateIdsExample` | verif.js:27-31 | `[x, y, x]` yields `[x]`, whether or not `y` equals `x` |
| `Verif.NoDuplicatesIffDistinct` | verif.js:52-58 | no duplicate is reported exactly when all product ids are distinct (the "No duplicate product IDs found." branch) |
| `Verif.CheckProducts` | verif.js:34-61 | a failed products read is reported, and the folder listing is not consulted; a failed folder listing is reported next; a products file that is not a list of records is reported only after the listing was read; otherwise the report is exactly the missing-id filter over the folder list and the duplicate list, so the missing ids are the product ids with no directory entry of that name, the "all present" verdict holds exactly when every product has such an entry, and the duplicates are the ids occurring more than once |
| `Verif.DuplicatesIgnoreFolders` | verif.js:39-52 | the duplicate report is the same whatever the folder listing is |
| `Verif.CheckProductsExample` | verif.js:34-58 | products `a` and `b` with the single folder `a` report `b` as missing and no duplicates |
| `Duplicate.Links` | duplicate.js:84 | no more links are returned than there are records |
| `Duplicate.LinksCount` | duplicate.js:84 | a non-empty link is returned once for every record carrying it, so duplicates are kept; the empty link is never returned; every returned link is a record's link |
| `Duplicate.LinksEmpty` | duplicate.js:84 | no link is returned exactly when no record has a non-empty link |
| `Duplicate.LinksAppend` | duplicate.js:84 | record order is kept: the links of two record lists put together are the first list's links followed by the second's |
| `Duplicate.LinksContribution` | duplicate.js:84 | the record at each position contributes its link, when truthy, exactly between the links of the records before it and those after it |
| `Duplicate.LinksExample` | duplicate.js:84 | a record without a link and a record with an empty link are skipped, and a repeated link is returned twice |
| `Duplicate.GetLinksFromFile` | duplicate.js:75-91 | a failed read or parse, or a parsed value that is not a list of records, yields no value (`undefined`) instead of an error; otherwise the result is exactly the extracted links, each non-empty and the link of some record, no more than the records |

## Left out

- Reading the products file, `JSON.parse`, and `readdir` (verif.js:5-24, duplicate.js:78-81). They appear only as `Result` inputs. The failure reason is an opaque string.
- Console output, including the `forEach` logging of each id and the error logging (verif.js:44-58, duplicate.js:89). The model keeps the conditions that choose each message: `Report.AllFoldersPresent`, `Report.NoDuplicates`, and the error results.
- Record fields other than `id` and `link`, and JSON values of any other type. A `link` is a string, `undefined` or `null` (`None`); a record that is a number, string or boolean has no link and is `Entity(None)`. A parsed value that is not an array, or an array holding `null`, makes the `map` throw; it is `NotProductList` or `NotEntityList`.
- Verif.Product: ids are strings. A record that is a number, string or boolean, or one whose `id` is missing or not a string (an `undefined` id in verif.js:39), is not modelled.
- Every other script: sitemap fetching, browser automation, background removal, image augmentation, canvas capture, image naming, and the `Promise.all` fan-out. All of these are network, browser, third-party image libraries or concurrency.
- The commented-out `findDuplicatesById` and `getProductModal` (duplicate.js:1-72). They are dead code.
