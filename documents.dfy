/** The backend's document shapes (the Mongoose schemas for poems,
    comments, the visit counter and the administrator) and the responses
    the route handlers send. */
module Documents {
  import Bcrypt

  /** A document id (a Mongo ObjectId), handed out fresh by the store. */
  type Id = nat

  /** `date` defaults to the time of creation, in milliseconds. */
  datatype Poem = Poem(title: string, content: string, date: nat)

  /** `approved` defaults to false; `text` is the schema's `comment` field. */
  datatype Comment = Comment(poemId: Id, name: string, text: string, date: nat, approved: bool)

  /** The sort keys of `sort({ date: -1 })`. */
  function PoemDate(p: Poem): nat { p.date }

  function CommentDate(c: Comment): nat { c.date }

  datatype Visit = Visit(count: nat, lastUpdated: nat)

  /** `password` holds the bcrypt hash, never the password. */
  datatype Admin = Admin(username: string, password: Bcrypt.Hashed)

  /** The JSON bodies the handlers send. */
  datatype Body =
    | Message(message: string)
    | LoginOk(token: string, message: string)
    | PoemDoc(id: Id, poem: Poem)
    | PoemDocs(poems: seq<(Id, Poem)>)
    | CommentDoc(id: Id, comment: Comment)
    | CommentDocs(comments: seq<(Id, Comment)>)
    | VisitCount(count: nat)
    | VisitReset(count: nat, message: string)

  datatype Response = Response(status: nat, body: Body)

  const TokenRequired := "Token gerekli"
  const InvalidToken := "Geçersiz token"
  const InvalidCredentials := "Geçersiz kullanıcı adı veya şifre"
  const LoginSucceeded := "Giriş başarılı"
  const TitleAndContentRequired := "Başlık ve içerik gerekli"
  const PoemNotFound := "Şiir bulunamadı"
  const PoemDeleted := "Şiir silindi"
  const CommentFieldsRequired := "Şiir ID, ad ve yorum gerekli"
  const CommentNotFound := "Yorum bulunamadı"
  const CommentDeleted := "Yorum silindi"
  const AdminExists := "Admin zaten mevcut"
  const AdminCreated := "Admin kullanıcısı oluşturuldu"
  const VisitsReset := "Ziyaret sayacı sıfırlandı"
}
