# Pharmacy catalogue: product and category services

This project models the business rules of a pharmacy catalogue back end
written as two NestJS services over TypeORM repositories:

- `ProdutoService` owns the **products** (`Produto`). It offers lookups by
  id, by code and by name, two expiry queries ("expires this month", "all
  products ordered by expiry") and four discount entry points. Each entry
  point validates a percentage, selects a set of rows (one id, one category,
  a name/manufacturer match, an expiry window), fails when that set is empty,
  and then rewrites `preco` on every selected row. It also offers guarded
  `create` / `update` / `delete`.
- `CategoriaService` owns the **categories** (`Categoria`). It offers
  lookup by id, case-insensitive searches by name and by description,
  `updateDescricao` (trim, reject blank input), and guarded `update` /
  `delete`. The product service calls its `findById` as the referential check
  on `create` and `update`.

The TypeORM repositories become in-memory tables `map<int, Row>` keyed by
id. Each table is a field of a class, `CategoriaService` in module
`Categorias` and `ProdutoService` in module `Produtos`. The methods reassign
that field. Thrown `HttpException`s become the result datatype
`Outcome<T> = Ok(value) | NotFound(msg) | BadRequest(msg)`. It carries the
message the source attaches, so error precedence (which check fails first)
can be seen in the contracts.

Modules:

- `Outcomes`: the `Outcome` and `Option` datatypes.
- `Text`: case-insensitive substring match (`ILike '%x%'`, which TypeORM
  writes on MySQL as `UPPER(..) LIKE UPPER(..)`, and `LOWER(..) LIKE
  LOWER(..)`) and JavaScript's `String.prototype.trim`.
- `Calendar`: calendar days, `setDate(getDate() + n)` as `AddDays`, and the
  month bounds `new Date(y, m, 1)` / `new Date(y, m + 1, 0)`.
- `Desconto`: the price rule `parseFloat((preco * (1 - p / 100)).toFixed(2))`
  on integer cents and integer percentages.
- `Chaves`: walks a table's keys in increasing order.
- `ProdutoTabela`: the product record, the row selections, the price
  rewrite of a whole table (`ComDesconto`), ordering by expiry, and the
  store's cascade on category delete.
- `Categorias`, `Produtos`: the two service classes.

Decisions worth knowing:

- Prices are held as integer cents (`decimal(8,2)`). Percentages are
  integers, because the controller parses them with `ParseIntPipe`. The
  rounding of `toFixed(2)` is modelled on exact rationals: the nearest cent,
  with halves rounded away from zero.
- "Today" is a parameter `hoje`, and expiry dates are calendar days
  `Date(year, month, day)`. The time of day set by `setHours` is dropped. The
  window bounds are compared by whole days, both ends included.
- The store assigns ids 1, 2, 3, … (`PrimaryGeneratedColumn`). Each service
  keeps the next id in `nextId`.
- Results whose order the source leaves to the database are sets. The
  ordered query is a sequence sorted by expiry. The rows a discount returns
  are a sequence in increasing id order; that order is a choice of this
  model (see "Left out").
- The by-id discount looks the product up before it checks the percentage
  (src/produto/services/produto.service.ts:124-131). The other three
  discount entry points check the percentage first.
- Discounts compound: 20% of 10.00 gives 8.00, and a second 20% gives 6.40
  (`Desconto.NovoPrecoCompoe`, `Produtos.CenarioDescontoComposto`).

## Model

| member | source | states |
|---|---|---|
| `Desconto.RoundHundredths` | src/produto/services/produto.service.ts:114-116 | `toFixed(2)` on a value in hundredths of a cent: the result is the nearest whole cent, and a half rounds away from zero |
| `Desconto.PercentualValido` | src/produto/services/produto.service.ts:83 | the guard that rejects a percentage below 0 or above 100 rejects exactly the percentages for which the price rule would take 1.00 below 0 or above 1.00 |
| `Desconto.NovoPreco` | src/produto/services/produto.service.ts:114-116 | the new price is `preco * (1 - percentual / 100)` rounded to the nearest cent, halves away from zero |
| `Desconto.NovoPrecoLimites` | src/produto/services/produto.service.ts:113-118 | with 0 ≤ p ≤ 100 and a non-negative price, the discounted price lies between 0 and the old price |
| `Desconto.NovoPrecoZero` | src/produto/services/produto.service.ts:133-135 | a 0% discount leaves any price unchanged |
| `Desconto.NovoPrecoTotal` | src/produto/services/produto.service.ts:133-135 | a 100% discount gives 0 |
| `Desconto.NovoPrecoMonotone` | src/produto/services/produto.service.ts:162-167 | a larger percentage never gives a higher price |
| `Desconto.NovoPrecoCompoe` | src/produto/services/produto.service.ts:162-167 | discounts compound: 20% of 10.00 twice gives 8.00 and then 6.40, so a repeated call is not idempotent |
| `Text.FoldString` | src/categoria/services/categoria.service.ts:36 | lower-case folding keeps the length and folds each character |
| `Text.ContainsIgnoreCase` | src/categoria/services/categoria.service.ts:36 | `ILike '%sub%'` (on MySQL `UPPER(field) LIKE UPPER('%sub%')`) holds exactly when the case-folded `sub` occurs at some offset of the case-folded field |
| `Text.IsSubstringAt` | src/categoria/services/categoria.service.ts:43 | the `%x%` match holds exactly when the pattern occurs at some offset of the field |
| `Text.EmptyIsSubstring` | src/produto/services/produto.service.ts:42 | the empty pattern `%%` matches every value |
| `Text.FoldStringIdempotent` | src/produto/services/produto.service.ts:194 | folding a folded string changes nothing |
| `Text.CaseOfArgumentsIrrelevant` | src/produto/services/produto.service.ts:194-202 | `LOWER(field) LIKE LOWER(pattern)` does not depend on the case of either the field or the search text |
| `Text.EspacosDoTrim` | src/categoria/services/categoria.service.ts:50 | the characters `trim()` removes (`IsWhitespace`) are exactly the 25 code points of the ECMAScript WhiteSpace and LineTerminator productions |
| `Text.TrimStart` | src/categoria/services/categoria.service.ts:57 | removes exactly the leading whitespace: the result is a suffix, what was removed is all whitespace, and the result does not start with whitespace |
| `Text.TrimEnd` | src/categoria/services/categoria.service.ts:57 | removes exactly the trailing whitespace, symmetrically |
| `Text.Trim` | src/categoria/services/categoria.service.ts:57 | `trim()` yields a string that neither starts nor ends with whitespace |
| `Text.TrimRemovesOnlyWhitespace` | src/categoria/services/categoria.service.ts:57 | the result of `trim()` is a contiguous block of the input, with only whitespace on either side of it |
| `Text.TrimEmptyIffBlank` | src/categoria/services/categoria.service.ts:50 | `s.trim() === ''` holds exactly when `s` is empty or all whitespace |
| `Text.TrimOfTrimmed` | src/categoria/services/categoria.service.ts:57 | a string without leading or trailing whitespace is its own trim |
| `Text.TrimIdempotent` | src/categoria/services/categoria.service.ts:57 | trimming twice is trimming once |
| `Calendar.DaysInMonth` | src/produto/services/produto.service.ts:53 | February has 29 days in Gregorian leap years and 28 otherwise; April, June, September and November have 30; the other seven months have 31 |
| `Calendar.NotAfterIsTotalOrder` | src/produto/services/produto.service.ts:65 | the day order behind `Between` and `ORDER BY data_validade` is a total order |
| `Calendar.NextDay` | src/produto/services/produto.service.ts:93 | the next calendar day is valid, later, and no valid day lies strictly between |
| `Calendar.PrevDay` | src/produto/services/produto.service.ts:93 | the previous calendar day is valid, earlier, and no valid day lies strictly between |
| `Calendar.NextPrevInverse` | src/produto/services/produto.service.ts:93 | stepping a day forward and back (or back and forward) returns to the same day |
| `Calendar.AddDays` | src/produto/services/produto.service.ts:92-93 | `setDate(getDate() + n)` yields a valid calendar day for every offset within JavaScript's Date range, negative ones included |
| `Calendar.AddDaysStep` | src/produto/services/produto.service.ts:96-97 | one more day of offset is one `NextDay` further, for any offset |
| `Calendar.AddDaysStrictlyMonotone` | src/produto/services/produto.service.ts:92-98 | a larger offset from today gives a strictly later day |
| `Calendar.FirstOfNextMonth` | src/produto/services/produto.service.ts:53 | `new Date(y, m + 1, 1)` is the valid day that follows the last day of month `m`: the 1st of the following month, December rolling over to January |
| `Calendar.DayZeroOfNextMonth` | src/produto/services/produto.service.ts:53 | `new Date(y, m + 1, 0)` is a valid calendar day |
| `Calendar.DayZeroIsLastDay` | src/produto/services/produto.service.ts:53 | day 0 of the next month is the last day of the month, leap years included |
| `Calendar.MonthBounds` | src/produto/services/produto.service.ts:52-57 | a day lies between the first day and day 0 of the next month, both included, exactly when it belongs to that month |
| `Chaves.ChavesAte` | src/produto/services/produto.service.ts:63-67 | lists exactly the keys of a set that lie below the bound, in strictly increasing order |
| `ProdutoTabela.SelecaoPorCategoria` | src/produto/services/produto.service.ts:150-153 | selects exactly the rows whose category id equals the argument |
| `ProdutoTabela.Informado` | src/produto/services/produto.service.ts:184 | a filter counts as given exactly when it is neither absent (`undefined`) nor the empty string, as JavaScript truthiness decides `if (nome)` |
| `ProdutoTabela.PassaFiltro` | src/produto/services/produto.service.ts:193-203 | a filter that is not given lets every row through; a given one lets through exactly the rows whose field contains it, ignoring case |
| `ProdutoTabela.SelecaoPorNomeEFabricante` | src/produto/services/produto.service.ts:191-205 | selects exactly the rows that contain every filter that is given (present and non-empty), ignoring case; a filter that is not given does not constrain |
| `ProdutoTabela.SelecaoPorValidade` | src/produto/services/produto.service.ts:100-104 | selects exactly the rows whose expiry lies between the two bounds, both days included |
| `ProdutoTabela.JanelaInvertidaVazia` | src/produto/services/produto.service.ts:90-104 | with `diasMin > diasMax` the window `[today + diasMin, today + diasMax]` selects no row |
| `ProdutoTabela.JanelaDeHoje` | src/produto/services/produto.service.ts:90-104 | with both offsets 0 the window selects exactly the rows expiring today |
| `ProdutoTabela.Descontada` | src/produto/services/produto.service.ts:133-135 | a discounted row differs from the old row only in `preco`, which follows the price rule |
| `ProdutoTabela.ComDesconto` | src/produto/services/produto.service.ts:162-167 | a discount keeps the table's keys, changes only `preco`, changes it only on selected rows, and applies the price rule there |
| `ProdutoTabela.LinhasDescontadas` | src/produto/services/produto.service.ts:162-169 | applying the price rule to each selected row gives exactly the rows of the discounted table for that selection |
| `ProdutoTabela.ComDescontoValida` | src/produto/services/produto.service.ts:214-221 | a discount keeps the table well formed: ids, key range, valid dates |
| `ProdutoTabela.ComDescontoNaoAumenta` | src/produto/services/produto.service.ts:214-219 | a valid discount keeps every price non-negative and raises none |
| `ProdutoTabela.ComDescontoZero` | src/produto/services/produto.service.ts:113-118 | a 0% discount rewrites the table into itself |
| `ProdutoTabela.LinhasDe` | src/produto/services/produto.service.ts:150-153 | lists the rows under the given keys, each exactly once, in increasing id order |
| `ProdutoTabela.Linhas` | src/produto/services/produto.service.ts:15-21 | lists every row of the table, each exactly once |
| `ProdutoTabela.Inserir` | src/produto/services/produto.service.ts:63-67 | inserting into an expiry-ordered sequence keeps it ordered and adds exactly one occurrence of the new row |
| `ProdutoTabela.Ordenar` | src/produto/services/produto.service.ts:63-67 | sorting yields a permutation of its input, non-decreasing in expiry day |
| `ProdutoTabela.SemCategoria` | src/produto/entities/produto.entity.ts:46-49 | the store's `onDelete: 'CASCADE'` leaves exactly the rows that do not reference the deleted category, unchanged |
| `ProdutoTabela.SemCategoriaValida` | src/produto/entities/produto.entity.ts:46-49 | the cascade keeps the product table well formed |
| `Produtos.ProdutoService.FindAll` | src/produto/services/produto.service.ts:15-21 | returns exactly the stored rows |
| `Produtos.ProdutoService.FindById` | src/produto/services/produto.service.ts:23-37 | returns the row stored under `id`, or NOT_FOUND 'Produto não encontrado!' exactly when there is none |
| `Produtos.ProdutoService.FindAllByName` | src/produto/services/produto.service.ts:39-48 | returns exactly the stored rows whose name contains the argument, ignoring case |
| `Produtos.ProdutoService.BuscarProdutosValidadeNoMes` | src/produto/services/produto.service.ts:50-60 | returns exactly the stored rows whose expiry lies in the year and month of today, first and last day included |
| `Produtos.ProdutoService.BuscarProdutosOrdenadosPorVencimento` | src/produto/services/produto.service.ts:62-68 | returns a permutation of all stored rows, non-decreasing in expiry day |
| `Produtos.ProdutoService.BuscarProdutoPorCodigo` | src/produto/services/produto.service.ts:70-76 | returns a stored row with that code exactly when one exists (the least id among duplicates), or NOT_FOUND 'Produto não encontrado' |
| `Produtos.ProdutoService.DescontarLinhas` | src/produto/services/produto.service.ts:162-167 | the `map` over the fetched rows: each listed row gets the price rule, every other row is unchanged, and the rewritten rows come back in list order |
| `Produtos.ProdutoService.Descontar` | src/produto/services/produto.service.ts:162-169 | rewrites the table into `ComDesconto` of the selection and returns exactly the rewritten rows, in increasing id order |
| `Produtos.ProdutoService.AplicarDescontoPorValidadeEntreDias` | src/produto/services/produto.service.ts:78-121 | checks the percentage first (BAD_REQUEST, no write); then selects the window `[today + diasMin, today + diasMax]`, defaults 30 and 60; an empty window gives NOT_FOUND with no write; otherwise it discounts exactly the window's rows and returns them |
| `Produtos.ProdutoService.AplicarDescontoPorId` | src/produto/services/produto.service.ts:123-137 | an unknown id gives NOT_FOUND even for an invalid percentage; a known id with an invalid percentage gives BAD_REQUEST with no write; otherwise it discounts that row alone and returns it |
| `Produtos.ProdutoService.AplicarDescontoPorCategoria` | src/produto/services/produto.service.ts:139-170 | checks the percentage first (BAD_REQUEST, no write); no row in the category gives NOT_FOUND with no write; otherwise it discounts exactly the category's rows and returns them |
| `Produtos.ProdutoService.AplicarDescontoPorNomeOuFabricante` | src/produto/services/produto.service.ts:172-222 | checks the percentage first, then requires at least one given filter (both BAD_REQUEST, no write); no match gives NOT_FOUND with no write; otherwise it discounts exactly the matching rows and returns them |
| `Produtos.ProdutoService.Create` | src/produto/services/produto.service.ts:224-228 | a missing category gives NOT_FOUND and adds nothing; otherwise it stores the product under a fresh id, advances the id counter by one, and `FindById` then returns it |
| `Produtos.ProdutoService.Update` | src/produto/services/produto.service.ts:230-236 | a missing product gives NOT_FOUND 'Produto não encontrado!', checked before the category; a missing category then gives NOT_FOUND 'Categoria não encontrada!'; nothing is saved on either failure; otherwise only that key is overwritten |
| `Produtos.ProdutoService.Delete` | src/produto/services/produto.service.ts:238-242 | a missing id gives NOT_FOUND with the table unchanged; otherwise exactly that key is removed |
| `Categorias.CategoriaService.FindAll` | src/categoria/services/categoria.service.ts:13-15 | returns exactly the stored categories |
| `Categorias.CategoriaService.FindById` | src/categoria/services/categoria.service.ts:17-31 | returns the category stored under `id`, or NOT_FOUND 'Categoria não encontrada!' exactly when there is none |
| `Categorias.CategoriaService.FindAllByDescricao` | src/categoria/services/categoria.service.ts:33-39 | returns exactly the stored categories whose description contains the argument, ignoring case; an empty result is not an error |
| `Categorias.CategoriaService.FindAllByNome` | src/categoria/services/categoria.service.ts:41-45 | returns exactly the stored categories whose name contains the argument, ignoring case; an empty result is not an error |
| `Categorias.FindAllByNomeIgnoraCaixa` | src/categoria/services/categoria.service.ts:41-45 | the name search gives the same result whatever the case of the search text |
| `Categorias.FindAllByDescricaoIgnoraCaixa` | src/categoria/services/categoria.service.ts:33-39 | the description search gives the same result whatever the case of the search text |
| `Categorias.FindAllByNomeVazio` | src/categoria/services/categoria.service.ts:41-45 | searching for the empty name returns every category |
| `Categorias.CategoriaService.UpdateDescricao` | src/categoria/services/categoria.service.ts:47-59 | an unknown id gives NOT_FOUND, checked first; an empty or all-whitespace description gives BAD_REQUEST with nothing saved; otherwise only that category's description changes, to the trimmed text, which neither starts nor ends with whitespace |
| `Categorias.UpdateDescricaoTwice` | src/categoria/services/categoria.service.ts:47-59 | a second identical `updateDescricao` call gives the same result and leaves the table as the first call left it |
| `Categorias.CategoriaService.Create` | src/categoria/services/categoria.service.ts:61-63 | stores the category under a fresh id, advances the id counter by one, and `FindById` on that id then returns it |
| `Categorias.CategoriaService.Update` | src/categoria/services/categoria.service.ts:65-68 | a missing id gives NOT_FOUND with the table unchanged; otherwise only that key is overwritten |
| `Categorias.CategoriaService.Delete` | src/categoria/services/categoria.service.ts:70-74 | a missing id gives NOT_FOUND with the table unchanged; otherwise exactly that key is removed |

`Produtos.CenarioDescontoComposto` is a client method. It creates a category
and a product at 10.00, then applies the 20% category discount twice. From
the contracts alone, the verifier derives the prices 8.00 and 6.40.

## Left out

- HTTP layer: routing, status codes and `ParseIntPipe` are not modelled
  (`src/produto/controllers/produto.controller.ts`; the category controller is
  not part of this model). Ids, percentages and day offsets are taken as
  integers. The controller passes `diasMin` and `diasMax` from the query
  string without a parse pipe, and the model assumes they arrive as numbers.
- Module wiring and the MySQL connection (`src/app.module.ts`): no logic.
- Eager loading of `categoria` (`relations`): a product row holds only its
  category id `categoriaId`.
- TypeORM and SQL details. The repositories are in-memory maps. `%` and `_`
  in a search argument are treated as ordinary characters. Case folding
  covers ASCII and Latin-1 letters only, not the database collation's full
  rules.
- Floating point. JavaScript doubles and the 8-digit bound of `decimal(8,2)`
  are not modelled. On values a double cannot hold exactly, `toFixed` can
  round differently from the exact rounding in `Desconto.RoundHundredths`.
- Wall-clock time. `new Date()` becomes the parameter `hoje`. Time of day,
  time zones and the `setHours` calls are dropped, and days are compared
  whole.
- async/await and concurrency. This includes the lost update between
  concurrent discounts: every operation runs on its own.
- Produtos.ProdutoService.Create always inserts under a fresh id. The
  repository's `save` upsert, which would overwrite a row when the client
  supplies an existing id, is not modelled.
- Categorias.CategoriaService.Create always inserts under a fresh id, for
  the same reason: the upsert of `save` on a client-supplied id is not
  modelled.
- Produtos.ProdutoService.Create requires the expiry to be a valid calendar
  day. The entity's `@IsDateString()` checks only the ISO-8601 shape, so a
  day such as 2026-02-31 would pass it. No `ValidationPipe` registration is
  part of this model either. The MySQL `date` column
  then makes `save` fail. The model drops that failing path.
- Produtos.ProdutoService.Update requires a valid calendar expiry, for the
  same reason: the failing `save` on an impossible day is not modelled.
- Calendar.AddDays yields a day for every integer offset. A JavaScript
  `Date` holds only time values within 8.64e15 ms of 1970-01-01, about
  100,000,000 days either way. Past that range, `setDate` at
  src/produto/services/produto.service.ts:93 and :97 gives an Invalid Date,
  `setHours` keeps it invalid, and the `Between` bounds at :102 no longer
  name a day. The model does not capture that Invalid Date path.
- Produtos.ProdutoService.Create takes the product's category as the integer
  `categoriaId`. The request body itself is not modelled. When the body has
  no `categoria`, `produto.categoria.id` at
  src/produto/services/produto.service.ts:225 throws a TypeError, and the
  model has no such path.
- Produtos.ProdutoService.Update takes `categoriaId` in the same way. The
  TypeError from `produto.categoria.id` at :233, on a body without
  `categoria`, is not modelled.
- Produtos.ProdutoService.Update takes `id` as an integer. A body without
  `id` is not modelled. In TypeORM 0.3 an `undefined` key in a `where`
  object is dropped, so `findOne` at src/produto/services/produto.service.ts:24-31
  would return some stored row, the existence check at :231 would pass on a
  non-empty table, and `save` at :235 would insert a new row.
- Categorias.CategoriaService.Update takes `id` as an integer, for the same
  reason. On a body without `id`, `findOne` at
  src/categoria/services/categoria.service.ts:18-22 would match some stored
  category, and `save` at :67 would insert a new one.
- Produtos.ProdutoService.Descontar returns the rewritten rows in
  increasing id order. In the source, that order is whatever `find`
  (src/produto/services/produto.service.ts:100-104, :150-153) or `getMany`
  (:205) yields, since none of them has an ORDER BY. The fixed order is a
  choice of this model, and the four discount entry points inherit it.
- Produtos.ProdutoService.BuscarProdutoPorCodigo returns the row with the
  least id among rows that share a code. The database leaves that choice
  unspecified.
- The cascade from a category delete to its products is a database action.
  It is modelled only as the table function `ProdutoTabela.SemCategoria`.
  `Categorias.CategoriaService.Delete` does not change the product table,
  and the product table's invariant does not require every `categoriaId`
  to exist.
- Categorias.CategoriaService.UpdateDescricao takes a string. The
  `!novaDescricao` test for an `undefined` argument has no counterpart
  beyond the empty string.
- `DeleteResult` becomes `Ok(())`.
