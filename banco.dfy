/** The persistent store (teste.py `BancoDados`): the four tables of
    `estoque.db` as fields that the operations reassign, together with the
    AUTOINCREMENT counters. Opening it runs the idempotent schema creation
    and the admin bootstrap. */
module Banco {
  import opened Modelos
  import opened Tabelas

  class BancoDados {
    /** `hash_password`: SHA-256 is a library call, so the store is given a
        hash function and everything below holds whichever one it is. */
    const hashSenha: string -> string

    var categorias: seq<Categoria>
    var produtos: seq<Produto>
    var vendas: seq<Venda>
    var usuarios: seq<Usuario>
    var seqCategorias: nat
    var seqProdutos: nat
    var seqVendas: nat
    var seqUsuarios: nat

    /** The database file as one value. */
    function Conteudo(): Arquivo
      reads this
    {
      Arquivo(categorias, produtos, vendas, usuarios, seqCategorias, seqProdutos, seqVendas, seqUsuarios)
    }

    /** The schema's constraints hold of the tables. */
    predicate Valid()
      reads this
    {
      Integro(Conteudo())
    }

    /** `BancoDados()` on the file `arquivo` (an empty one when the file did
        not exist: `ArquivoNovo()`): `CREATE TABLE IF NOT EXISTS` keeps what
        is there, then the admin bootstrap runs. */
    constructor (hash: string -> string, arquivo: Arquivo)
      requires Integro(arquivo)
      ensures Valid() && hashSenha == hash
      ensures Conteudo() == InserirAdmin(arquivo, hash)
    {
      hashSenha := hash;
      categorias, produtos, vendas, usuarios := arquivo.categorias, arquivo.produtos, arquivo.vendas, arquivo.usuarios;
      seqCategorias, seqProdutos := arquivo.seqCategorias, arquivo.seqProdutos;
      seqVendas, seqUsuarios := arquivo.seqVendas, arquivo.seqUsuarios;
      new;
      CriarUsuarioAdmin();
    }

    /** `criar_usuario_admin`: INSERT OR IGNORE of ('admin', hash('admin123'),
        'admin'); only the users table and its counter can change. */
    method CriarUsuarioAdmin()
      requires Valid()
      modifies this
      ensures Valid()
      ensures Conteudo() == InserirAdmin(old(Conteudo()), hashSenha)
      ensures Contar(Logins(usuarios), ADMIN_USUARIO) == 1
    {
      ghost var antes := Conteudo();
      var senhaHash := hashSenha(ADMIN_SENHA);
      if Indice(Logins(usuarios), ADMIN_USUARIO).None? {
        usuarios := usuarios + [Usuario(seqUsuarios + 1, ADMIN_USUARIO, senhaHash, ADMIN_PAPEL)];
        seqUsuarios := seqUsuarios + 1;
      }
      InserirAdminIntegro(antes, hashSenha);
      BootstrapAdmin(antes, hashSenha);
    }
  }
}
