/**
 The abstract syntax tree (src/ast.h).  `slot` is the node's stack_offset: the
 parser leaves it 0 and semantic analysis fills it in.
 */
module Ast {
  import opened Words

  datatype BinaryOp =
    | Plus | Minus | Times | Divide | Modulo
    | Equal | NotEqual | Less | Greater | LessEq | GreaterEq
    | LogicalAnd | LogicalOr
    | BitAndOp | BitOrOp | BitXorOp | ShiftLeft | ShiftRight

  datatype UnaryOp = LogicalNot | Minus1 | Tilde | AddressOf | Deref

  datatype AssignOp = Set | PlusSet | MinusSet | TimesSet | DivideSet

  datatype BaseType = Chonk | Smol | Megachonk | Floof | Bigfloof | Boop | Byte | Void

  datatype TypeExpr = Base(base: BaseType) | Pointer(to: TypeExpr)

  datatype Expr =
    | Number(value: nat)
    | Str(text: string)
    | Null
    | Ident(name: string, slot: nat)
    | Binary(op: BinaryOp, left: Expr, right: Expr)
    | Unary(uop: UnaryOp, operand: Expr)
    | Assign(aop: AssignOp, target: Expr, source: Expr)
    | SizeofType(ty: TypeExpr)
    | SizeofExpr(sized: Expr)
    | Call(callee: Expr, args: seq<Expr>)
    | Index(indexed: Expr, index: Expr)
    | Member(whole: Expr, field: string)

  // `fow` keeps only the clauses that are present, in order, and then its body,
  // as the parser's child list does.
  datatype Stmt =
    | If(cond: Expr, thn: Stmt, els: Option<Stmt>)
    | While(cond: Expr, body: Stmt)
    | For(clauses: seq<Stmt>, body: Stmt)
    | Return(result: Option<Expr>)
    | Break
    | Continue
    | Block(stmts: seq<Stmt>)
    | Decl(name: string, ty: TypeExpr, init: Option<Expr>, slot: nat)
    | ExprStmt(expr: Expr)

  datatype Param = Param(name: string, ty: TypeExpr, slot: nat)

  // `locals` is the function node's own stack_offset.
  datatype TopLevel =
    | Function(name: string, params: seq<Param>, ret: TypeExpr, body: Stmt, locals: nat)
    | Global(decl: Stmt)
}
