# Storefront backend-for-frontend: verified model of its data-shaping core

The service sits between a storefront and a Magento-style commerce backend plus
a headless content store. Almost all of it is request glue. This project
models the three parts that compute something, and proves what they promise:

- **Category flattener** (`Categories`, `categories.dfy`). `formatCategories`
  walks the backend's nested category tree (`children_data`) in pre-order and
  builds a flat list of category records. The first record is the root. Every
  other record carries an `ancestors` chain: the chain handed down by its
  caller, followed by `{id: String(parent_id), type: 'category'}`. The model
  has three layers:
  - the `Formatter` class holds the `formattedCategories` array as a `seq`
    field, and its recursive `Traverse` method pushes onto it exactly as the
    closure does;
  - the functions `Flatten`, `FlattenKids` and `Format` specify what gets
    pushed;
  - an independent description of pre-order, by paths of child indices
    (`ValidPath`, `NodeAt`, `Pos`, `Precedes`, `ParentChain`), against which
    the output is characterised record by record.
- **Product search query** (`Products`, `products.dfy`, over `UrlParams`,
  `url_params.dfy`). `getProductsURLWithParams` calls `set` on a
  `URLSearchParams` object: two fixed filter groups (category `eq`,
  visibility `neq` 1), then `searchCriteria[currentPage]` and
  `searchCriteria[pageSize]` only when the offset and limit are truthy. It
  returns `products?` followed by the serialized parameters. `URLSearchParams`
  is modelled as a class whose list of pairs changes in place. `set` follows
  section 6.2 of the WHATWG URL Standard. The serializer and parser follow
  sections 5.2 and 5.1 (application/x-www-form-urlencoded). The byte-level
  percent encoding and decoding are function parameters. `getProducts`
  renames the response fields `total_count`, `items` and `search_criteria`.
- **Promo list** (`Promos`, `promos.dfy`). `getPromos` maps the first entry's
  `promo_section` to `{text, order}` records, with `order` equal to the index
  plus 1, and echoes the sku.

`Decimal` (`decimal.dfy`) stands for JavaScript's `String(n)` on integers.
`Wrappers` (`wrappers.dfy`) holds `Option` and `Result`. When the source
throws (a root without `children_data`, a missing first entry, a missing
`promo_section` or `promo_text`), the model returns `None` or
`Err("Unable to fetch promos")`.

## Model

| member | source | states |
|---|---|---|
| `Categories.Formatter.constructor` | src/categories/categories.service.ts:46-52 | the list starts as exactly the root record |
| `Categories.Formatter.Traverse` | src/categories/categories.service.ts:54-79 | `traverse(item, prev)` appends exactly `Flatten(item, prev)`: the item's record, then the records of each child in input order, each seeded with the item's own chain read back from the record just pushed |
| `Categories.FormatCategories` | src/categories/categories.service.ts:45-84 | the imperative formatter returns `Format(root)`: nothing when the root lacks `children_data`, else the root record followed by the traversal of every top-level child with an empty chain |
| `Categories.FlattenLength` | src/categories/categories.service.ts:54-79 | one traversal appends exactly one record per node of the subtree |
| `Categories.FormatLength` | src/categories/categories.service.ts:54-81 | a result exists if and only if the root has `children_data`; its length is 1 plus the number of nodes below the root |
| `Categories.FormatFirstIsRoot` | src/categories/categories.service.ts:46-52 | record 0 has empty ancestors, `id` = `slug` = String(root.id), `description` = `name` = root.name, and no parent |
| `Categories.FormatLeafRoot` | src/categories/categories.service.ts:72-81 | a root whose `children_data` is empty gives the root record alone |
| `Categories.FlattenAt` | src/categories/categories.service.ts:55-78 | inside any subtree, the record at the pre-order position of a path is the record of the node at that path, with the chain of `parent_id`s collected on the way down |
| `Categories.FormatAt` | src/categories/categories.service.ts:55-70 | for every node below the root, the record at its pre-order position has `id` = `slug` = String(node.id) and `description` = `name`; its ancestors are the `parent_id` entries along the path, so their number is the node's depth; every entry has type `category`; `parent.id` equals the id of the last ancestor, which is String(node.parent_id) |
| `Categories.ParentChainExtends` | src/categories/categories.service.ts:56-62 | a node's chain is its parent's chain followed by one entry, its own `parent_id` |
| `Categories.FormatChainExtendsParent` | src/categories/categories.service.ts:73-77 | in the output, every non-root node comes after its parent (the root record for a top-level child), and its ancestors are the parent record's ancestors plus `{String(parent_id), 'category'}` |
| `Categories.FlattenLeaf` | src/categories/categories.service.ts:54-79 | a node whose `children_data` is missing or empty contributes exactly its own record |
| `Categories.ParentChainKinds` | src/categories/categories.service.ts:60 | every ancestor entry has type `category` |
| `Categories.PosPreservesOrder` | src/categories/categories.service.ts:72-81 | pre-order: a node's record precedes its descendants' records, and a subtree's records precede those of its later siblings |
| `Categories.PosInjective` | src/categories/categories.service.ts:75-77 | distinct nodes sit at distinct positions: no node is emitted twice |
| `Categories.PathAt` | src/categories/categories.service.ts:75-77 | every position of a subtree's output belongs to some node: no record comes from nowhere |
| `Categories.FormatCoversEveryNode` | src/categories/categories.service.ts:81 | every output record belongs to exactly one node of the tree |
| `Categories.LinkedChainIsLineage` | src/categories/categories.service.ts:59-60 | when every child's `parent_id` is its parent's id, the j-th chain entry is the id of the node j levels down the path |
| `Categories.FormatLinkedAncestors` | src/categories/categories.service.ts:56-62 | with such consistent data, a record's ancestors name the root and then every node on the way down to its parent |
| `Decimal.IntRoundTrip` | src/categories/categories.service.ts:48 | the decimal text standing for `String(n)` reads back to n |
| `Decimal.IntToStringInjective` | src/categories/categories.service.ts:63 | distinct numeric ids give distinct string ids |
| `UrlParams.SearchParams.constructor` | src/products/products.service.ts:33 | a new `URLSearchParams` holds no pairs |
| `UrlParams.SearchParams.Set` | src/products/products.service.ts:34-37 | `set` replaces the list by `SetParam` of the old list |
| `UrlParams.ReplaceFirst` | src/products/products.service.ts:34-37 | for a name already present at first index k, the result is the pairs before k, then the new pair in k's place, then the pairs after k without the name; `get(name)` is the value and exactly one pair has the name |
| `UrlParams.SetParam` | src/products/products.service.ts:34-37 | after `set(name, value)`, `get(name)` is the value, exactly one pair has that name, and the pairs with other names are unchanged and in order; the new pair takes the place of the first pair with that name, or goes at the end when there is none |
| `UrlParams.SetParamAppends` | src/products/products.service.ts:34-68 | setting a name not yet present appends it at the end, so distinct keys keep insertion order |
| `UrlParams.ParseSerialize` | src/products/products.service.ts:70 | when the encoder leaves no `&` or `=` and decoding undoes it, parsing the serialized pairs gives back the same pairs in the same order |
| `Products.ProductsUrlWithParams` | src/products/products.service.ts:31-71 | the series of `set` calls yields `products?` followed by the serialization of `QueryParams(req)` |
| `Products.SetFresh` | src/products/products.service.ts:34-68 | each `set` the builder makes uses a key it has not set before, so it appends |
| `Products.AllKeysDistinct` | src/products/products.service.ts:34-68 | the eight keys the builder may set are pairwise distinct |
| `Products.CategoryFilterFirst` | src/products/products.service.ts:34-45 | the first group is field `category_id`, value the categoryId text, condition `eq` |
| `Products.VisibilityFilterSecond` | src/products/products.service.ts:32-57 | the second group is field `visibility`, value `"1"`, condition `neq` |
| `Products.CurrentPageIffOffset` | src/products/products.service.ts:59-64 | `searchCriteria[currentPage]` is present if and only if offset is truthy, and then its value is the offset's text |
| `Products.PageSizeIffLimit` | src/products/products.service.ts:66-68 | `searchCriteria[pageSize]` is present if and only if limit is truthy, and then its value is the limit's text |
| `Products.QueryShape` | src/products/products.service.ts:34-68 | there are six filter pairs in fixed order, then zero, one or two paging pairs, and no key occurs twice |
| `Products.ProductsUrlDecodes` | src/products/products.service.ts:70 | the URL starts with `products?` and the rest parses back to exactly the query pairs |
| `Products.ProductPageRenamesOnly` | src/products/products.service.ts:87-91 | `total` is `total_count`, `results` is `items`, `searchCriteria` is `search_criteria`; the mapping is a bijection, so it adds and drops nothing |
| `Products.ProductPageOfNothing` | src/products/products.service.ts:88-90 | a missing response body gives three missing fields |
| `Promos.ShapeFrom` | src/promos/promos.service.ts:26-31 | the map succeeds if and only if every item has `promo_text`; then it gives one promo per item, whose text is the item's title and whose order is its index plus 1 |
| `Promos.GetPromos` | src/promos/promos.service.ts:26-36 | the call succeeds if and only if there is a first entry with a `promo_section` whose items all have `promo_text`; the result echoes the sku; failures reject with "Unable to fetch promos" |
| `Promos.GetPromosShape` | src/promos/promos.service.ts:26-31 | there are as many promos as items in the first entry's `promo_section`; the i-th has the i-th title and order i + 1 |
| `Promos.PromoOrdersIncrease` | src/promos/promos.service.ts:29 | the orders are 1..n and strictly increase |
| `Promos.GetPromosReadsFirstEntryOnly` | src/promos/promos.service.ts:26 | entries after the first never change the result |

## Left out

- Token acquisition (`getAdminToken`), every `axios` call, `https.Agent`, and the `ConfigService` lookups are network I/O and configuration. The models take the decoded response body as an argument.
- `getCategories` and `getProductBySku` only fetch and forward. `getCategories` hands the body to `formatCategories`, which is modelled.
- `console.log` and `console.error` are logging. The catch-and-rethrow becomes an error result: `None` from `Format`, and `Err("Unable to fetch promos")` from `GetPromos`.
- The carts service and all controllers, `app.module.ts` and `main.ts` are field copying, routing, dependency injection and bootstrap. They are not part of this model.
- Percent-encoding inside `URLSearchParams.toString()` is a parameter `encode`, and its inverse is a parameter `decode`. Only the pair and `&` structure of the serializer is modelled.
- The controller's query defaulting (`parseInt`, a default limit of 10) is not modelled. Offset and limit are `JsNumber` values, an integer or NaN. A missing category id is `None`, which prints as `"null"`.
- `Decimal.IntToString` and `Products.NumberText` agree with JavaScript's `String(n)` only for safe integers, |n| <= 2^53 - 1. Category ids, parent ids, offsets and limits are taken to be safe integers. Above that bound JavaScript numbers are doubles: `parseInt` rounds long digit strings, and `String` prints the shortest digits that read back to the same double (2^60 prints as `1152921504606847000`), whereas the model prints every digit. Exponent notation (1e21 and above) and non-integral numbers are not modelled either.
- A category node's `id`, `parent_id` and `name` are taken to be present. The source would print `"undefined"` for a missing number.
- A promo's `promo_text.title` is taken to be a string. A present `promo_text` without a title would give an undefined text, which is not modelled.
- A missing `entries` array and an empty one both make `getPromos` reject. The model's `entries` is a sequence, and the empty sequence covers both.
- Aliasing: the source shares one `ancestors` array between all children of a node. It never mutates one after it is built, so the value semantics of `seq` lose nothing.
