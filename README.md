# Inventory service of `teste.py`, modelled in Dafny

`teste.py` is a single-user desktop inventory tool backed by a local SQLite
file, `estoque.db`. It has four tables: `categorias`, `produtos`, `vendas`
and `usuarios`. This project models the part with logic in it:

- the inventory service `SistemaEstoque`, which adds products and
  categories, registers sales, produces the sales report and checks logins;
- the parts of the store `BancoDados` that the service depends on: the
  UNIQUE, NOT NULL and AUTOINCREMENT constraints of the schema, and the
  idempotent admin bootstrap.

Files (all verified together):

- `modelos.dfy`, module `Modelos`: one datatype per table row. The rows
  stand in for the value-holder classes `Produto`, `Categoria` and `Venda`
  (teste.py:84-103), which the service never constructs. Their fields
  follow the columns, not the classes: the class `Produto` has `categoria`
  and no `data_atualizacao`, and the class `Venda` has `preco` and `data`.
  The module also has the lookup `Indice`, which finds the first row with a
  key, as `WHERE col = ?` plus `fetchone()` does, and the facts about key
  columns.
- `tabelas.dfy`, module `Tabelas`: `Arquivo` holds the whole database file
  as one value. That is the four tables plus SQLite's `sqlite_sequence`
  counters. `Integro` states the schema's constraints. Each unit of work is
  a function from the file before to the file after:
  - `InserirCategoria` and `InserirProduto`: the two inserts;
  - `Vender`: the sale transaction;
  - `InserirAdmin`: the admin bootstrap;
  - `Autenticar`: the login query;
  - `Relatorio`: the sales-report join, and `Filtrar`/`Nomear`, a second
    definition of the same report as a filter followed by a lookup.

  Lemmas state what the service promises about each of them, and about any
  sequence of calls (`Executar`).
- `banco.dfy`, module `Banco`: the class `BancoDados`. Its tables are `seq`
  fields that the operations reassign. Its constructor opens a file and runs
  the bootstrap.
- `estoque.dfy`, module `Estoque`: the class `SistemaEstoque`. Its field
  `usuarioLogado` is `usuario_logado`. Every state-changing method is proved
  to change the store exactly as the matching `Tabelas` function says. The
  report is a function that reads the store. `CenarioWidget` is a Widget
  example: add it with quantity 10 at price 5.0, sell 3, then fail to
  sell 8.

Modelling choices:

- `hash_password` is SHA-256, a library call. It is a function value
  `hashSenha` that the store receives when it is constructed, so every
  property holds for any hash function. Hashes are compared only for
  equality.
- Prices (`REAL`) are Dafny `real` values. They are only copied from a
  product row into a sale row.
- Timestamps are `int`. The current time (`CURRENT_TIMESTAMP`) is a
  parameter `agora`. It stamps a new product's `data_atualizacao` and a new
  sale's `data_venda`.
- A NULL argument is `None`. The NOT NULL columns reject it, as an
  IntegrityError does, and the method returns `false`.
- AUTOINCREMENT: a new row gets the table's counter plus one. An insert
  that fails on a constraint does not advance the counter.
- The report's inner join is a nested-loop join: one row per product row
  whose id matches. Because ids are unique, that means exactly one row for a
  sale whose product exists and none for a sale whose product does not. The
  query has no ORDER BY. The model returns rows in the order of the sales
  table, which is one of the orders SQLite may use.
- The writes of `registrar_venda` (the UPDATE and the INSERT inside
  `with self.db.conn`) are one method that makes both changes or neither.
  The stock is read by the same method, just before them.

What the code accepts: no column has a CHECK constraint and foreign keys
are never enabled, so the model accepts the same:

- any integer quantity in `adicionar_produto`;
- a zero or negative quantity in `registrar_venda` whenever the stock is at
  least that quantity, so a negative "sale" raises the stock and a zero one
  leaves it (`VendaQuantidadeNaoPositiva`); a successful sale never leaves
  a negative stock, whatever the sign of the quantity (`VendaComEstoque`);
- the empty category name, since the schema only says NOT NULL;
- any `categoria_id`, or NULL, since SQLite does not enforce `REFERENCES`
  unless `PRAGMA foreign_keys` is set; a sale's `produto_id` is not checked
  against the foreign key either.

## Model

| member | source | states |
|---|---|---|
| `Modelos.Indice` | teste.py:127-130 | The lookup finds nothing exactly when no row has the key. Otherwise it finds the first row that has it. |
| `Modelos.ContarDistintos` | teste.py:56 | In a UNIQUE column a value occurs in exactly one row or in none. |
| `Tabelas.ArquivoNovo` | teste.py:31-63 | Creating the tables in a new file gives four empty tables that meet every constraint. |
| `Tabelas.Integro` | teste.py:31-58 | The schema's constraints: ids unique and at most the table's AUTOINCREMENT counter, and category, product and user names unique. A predicate with no contract of its own; the `...Integro` lemmas and `ExecutarIntegro` state that every operation keeps it. |
| `Tabelas.InserirCategoria` | teste.py:147-154 | Adding a category does not touch the products, sales or users tables. |
| `Tabelas.InserirCategoriaIntegro` | teste.py:33-35 | Inserting a category keeps the constraints, including unique names and ids. |
| `Tabelas.AdicionarCategoriaContrato` | teste.py:147-154 | Adding a category succeeds iff the name is not NULL and no category has it. On failure the file is unchanged. On success exactly one row with that name and the next id is appended. |
| `Tabelas.InserirProduto` | teste.py:114-122 | Adding a product does not touch the categories, sales or users tables. |
| `Tabelas.InserirProdutoIntegro` | teste.py:37-44 | Inserting a product keeps the constraints, including unique names and ids. |
| `Tabelas.AdicionarProdutoContrato` | teste.py:114-122 | Adding a product succeeds iff name, quantity and price are not NULL and no product has the name. On failure the file is unchanged. On success exactly one row with the given name, quantity, price, category id and current time is appended. |
| `Tabelas.Vender` | teste.py:124-144 | A sale never touches the categories or users tables. |
| `Tabelas.VenderIntegro` | teste.py:124-144 | A sale keeps every constraint: product ids and names are untouched and the sale row gets a fresh id. |
| `Tabelas.VendaComEstoque` | teste.py:132-143 | When a product has enough stock, the sale succeeds. Only that row's quantity changes, dropping by exactly the requested amount. Exactly one sale row is appended, with that product id, that quantity, the price from before the call and the current time. The new stock is not negative. |
| `Tabelas.VendaSemEstoque` | teste.py:144 | With no product of that id, or too little stock, the sale fails and the whole file is unchanged. |
| `Tabelas.VendaCondicao` | teste.py:132 | A sale succeeds iff some product has that id and stock at least the requested quantity. |
| `Tabelas.VendaQuadro` | teste.py:134-137 | A sale leaves every other product row unchanged. Of the sold row only `quantidade` changes, and `data_atualizacao` stays as it was. |
| `Tabelas.VendaQuantidadeNaoPositiva` | teste.py:132-142 | A sale of a zero or negative quantity is accepted, does not lower the stock, and records that quantity. |
| `Tabelas.InserirAdmin` | teste.py:65-70 | The bootstrap touches only the users table. |
| `Tabelas.InserirAdminIntegro` | teste.py:65-70 | The bootstrap keeps the constraints, including unique usernames. |
| `Tabelas.BootstrapAdmin` | teste.py:65-70 | With no 'admin' row, exactly ('admin', hash('admin123'), 'admin') is appended. With one, the file is unchanged. Either way exactly one row has usuario 'admin'. |
| `Tabelas.BootstrapIdempotente` | teste.py:21-24 | Opening the store any positive number of times leaves the same file as opening it once, with exactly one 'admin' row. |
| `Tabelas.Autenticar` | teste.py:178-184 | A session, when there is one, carries the supplied username. |
| `Tabelas.LoginCorreto` | teste.py:178-184 | Login succeeds iff some user row has that username and the hash of the supplied password. The session then carries that row's role. An unknown username always fails. |
| `Tabelas.Juntar` | teste.py:158-161 | The join gives at most one row per product row for a sale. Every row carries the sale's date, which lies in the period, and its quantity and price. `JuntarSolido`, `JuntarUnico` and `JuntarSemProduto` state which rows. |
| `Tabelas.Relatorio` | teste.py:157-162 | Every report row is dated within the period. `RelatorioSolido`, `RelatorioCompleto` and `RelatorioReferencia` state which rows. |
| `Tabelas.Filtrar` | teste.py:159-161 | The kept sales are sales of the table, dated within the period, whose product id is in the products table. |
| `Tabelas.JuntarReferencia` | teste.py:158-161 | With unique product ids, the join's rows for one sale are the kept sale, if it is kept, with its product's name. |
| `Tabelas.NomearConcat` | teste.py:158 | Looking the products up for two runs of kept sales gives the rows of the first run followed by those of the second. |
| `Tabelas.RelatorioReferencia` | teste.py:157-162 | With unique product ids, the report equals the sales in the period that have a product, in table order, each with its product's name: exactly one row per such sale and no other. |
| `Tabelas.JuntarSolido` | teste.py:158-161 | Every report row the join gives for a sale is that sale, dated within the period, with a product whose id matches. |
| `Tabelas.JuntarUnico` | teste.py:158-161 | With unique product ids, a sale whose product exists gives exactly one row within the period and none outside it. |
| `Tabelas.JuntarSemProduto` | teste.py:160 | A sale whose product id matches no product gives no row (inner join). |
| `Tabelas.RelatorioConcat` | teste.py:158-161 | The report over two runs of sales is the report of the first followed by the report of the second. |
| `Tabelas.RelatorioSolido` | teste.py:157-162 | Every report row is some sale dated between the bounds, both ends included, paired with its product's name. |
| `Tabelas.RelatorioCompleto` | teste.py:157-162 | Every sale dated between the bounds whose product exists appears in the report with that product's name. |
| `Tabelas.JuntarSoNomes` | teste.py:158 | The join reads only the ids and names of the products. |
| `Tabelas.RelatorioSoNomes` | teste.py:158-161 | Changing product quantities does not change the report. |
| `Tabelas.VendaNoRelatorio` | teste.py:139-141 | A successful sale adds exactly one report row at the end for every period that holds its time, and none for other periods. The row has the product's name, the quantity and the price. Earlier rows are unchanged. |
| `Tabelas.ExecutarIntegro` | teste.py:31-58 | After any sequence of adds, sales and restarts, all constraints still hold, so names and ids stay unique. Users are never removed. Once an 'admin' row exists, there stays exactly one. |
| `Banco.BancoDados.constructor` | teste.py:21-25 | Opening a file that meets the constraints keeps its tables and runs the bootstrap. |
| `Banco.BancoDados.CriarUsuarioAdmin` | teste.py:65-70 | The users table changes exactly as `InserirAdmin` says. Afterwards exactly one row has usuario 'admin'. |
| `Estoque.SistemaEstoque.constructor` | teste.py:109-111 | The service opens the store, and nobody is logged in. |
| `Estoque.SistemaEstoque.AdicionarProduto` | teste.py:114-122 | The result and the new tables are those of `InserirProduto`. The constraints are kept. |
| `Estoque.SistemaEstoque.RegistrarVenda` | teste.py:124-144 | The result is true iff some product has the id and enough stock. The new tables are those of `Vender`. The constraints are kept. |
| `Estoque.SistemaEstoque.AdicionarCategoria` | teste.py:147-154 | The result and the new tables are those of `InserirCategoria`. The constraints are kept. |
| `Estoque.SistemaEstoque.GerarRelatorioVendas` | teste.py:157-162 | A read-only query. Every row is a sale in the inclusive range with its product's name, and every such sale whose product exists is present. The result equals the reference definition `Nomear(Filtrar(...))`. |
| `Estoque.SistemaEstoque.Login` | teste.py:178-184 | The result is true iff a user row has the username and the password's hash. On success `usuarioLogado` is the username with that row's role. Otherwise it is unchanged. |
| `Estoque.CenarioWidget` | teste.py:114-143 | Widget is added with quantity 10 and price 5.0. A sale of 3 succeeds, leaving 7 and one sale row of quantity 3 at price 5.0. A following sale of 8 fails and leaves both unchanged. |

## Left out

- The Tkinter interface (`Aplicacao`, teste.py:189-232) and the `__main__` entry are user interface and event loop. `criar_menu_principal` is an empty stub.
- Backups (`criar_backup_dir`, `backup`, `realizar_backup`) are file-system I/O with `shutil`/`os` and timestamp formatting.
- The exports (`exportar_excel`, `exportar_pdf`) are thin wrappers over pandas and reportlab.
- The SQLite connection, `commit` and the CREATE TABLE statements are not modelled as such. Only their effect is: the tables, their constraints, and all-or-nothing units of work.
- SHA-256 inside `hash_password` is a library call, replaced by an arbitrary function given to the store.
- Floating-point behaviour of `REAL` prices is not modelled. Prices are only copied.
- SQLite's 64-bit integer limits are not modelled. Quantities and ids are unbounded integers, so an overflow of `quantidade - ?` cannot be expressed.
- Dynamic typing is left out: SQLite and Python accept a value of another type in a column, and comparing `None` with an integer in `registrar_venda` raises TypeError. Every argument has its column's type. NULL is modelled for the NOT NULL columns of the two inserts and for `categoria_id`.
- RegistrarVenda: a NULL `produto_id` is not modelled. `WHERE id = NULL` matches no row, so the code returns False, as it does for an absent id.
- Login: a NULL `usuario` is not modelled. `WHERE usuario = NULL` matches no row, so the code returns False, as it does for an unknown username.
- InserirAdmin: the `sqlite_sequence` counter after an INSERT OR IGNORE that is ignored is taken to be unchanged. SQLite does not promise this, and it may advance the counter. Only the ids of later users would differ; no code reads them. `BootstrapIdempotente` equates the whole file, counter included, under this choice.
- RegistrarVenda: under Python's default sqlite3 isolation, the implicit BEGIN comes only before the UPDATE, so the stock is read outside the transaction. The model assumes no other writer between the stock read and the UPDATE. Concurrency is out of scope in any case.
- The row order of the report without ORDER BY is left to SQLite. The model fixes one order, that of the sales table.
- Foreign keys are not enforced, as in the code, which never enables `PRAGMA foreign_keys`.
