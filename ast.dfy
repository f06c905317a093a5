/**
 * The syntax the evaluator consumes: token kinds, tokens, and the expression
 * and statement trees the parser hands over (one constructor per node class
 * the evaluator gives behaviour to).
 */
module Ast {
  import opened Wrappers

  /** The scanner's token kinds. */
  datatype TokenType =
    // single-character tokens
    | LeftParen | RightParen | LeftBrace | RightBrace | Comma
    | Dot | Minus | Plus | Semicolon | Slash | Star
    // one- or two-character tokens
    | Bang | BangEqual
    | Equal | EqualEqual | Greater | GreaterEqual | Less | LessEqual
    // literals
    | Identifier | StringToken | NumberToken
    // keywords
    | And | Class | Else | False | Fun | For | If | Nil | Break | Continue
    | Or | Print | Return | Super | This | True | Var | While
    | Eof

  /** A token: its kind, its text in the program, and the line it was read from. */
  datatype Token = Token(kind: TokenType, lexeme: string, line: int)

  /** The constant a literal node carries: the parser produces only these four kinds. */
  datatype LiteralValue = NilLiteral | BoolLiteral(b: bool) | NumberLiteral(n: real) | StringLiteral(s: string)

  datatype Expr =
    | Literal(constant: LiteralValue)
    | Grouping(expression: Expr)
    | Logical(left: Expr, operator: Token, right: Expr)
    | Unary(operator: Token, right: Expr)
    | Binary(left: Expr, operator: Token, right: Expr)
    | Variable(name: Token)
    | Assign(name: Token, value: Expr)

  datatype Stmt =
    | ExpressionStmt(expression: Expr)
    | PrintStmt(expression: Expr)
    | VarStmt(name: Token, initializer: Option<Expr>)
    | BlockStmt(statements: seq<Stmt>)
    | IfStmt(condition: Expr, thenBranch: Stmt, elseBranch: Option<Stmt>)
    | WhileStmt(condition: Expr, body: Stmt)

  /** A function declaration: its name, its parameter tokens in order, and its body. */
  datatype FunctionDecl = FunctionDecl(name: Token, params: seq<Token>, body: seq<Stmt>)
}
