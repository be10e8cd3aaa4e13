/** The document has the platform shape: each module and each domain is
    checked on its own, by evaluation, and the results are put together with
    the general lemmas about shaped hierarchies. */
module DocumentShape {
  import opened Types
  import opened Tree
  import opened Indexer
  import opened Shape
  import opened Document

  // ---------------------------------------------------------------------
  // ClinicalDomain

  lemma PatientManagementKind() ensures IsModule(PatientManagement) {}
  lemma PatientManagementNested() ensures Nested(PatientManagement) {}
  lemma PatientManagementShape() ensures IsModule(PatientManagement) && Nested(PatientManagement) { PatientManagementKind(); PatientManagementNested(); }
  lemma PatientManagementCodes() ensures SiblingsDistinct(PatientManagement) {}
  lemma EncounterManagementKind() ensures IsModule(EncounterManagement) {}
  lemma EncounterManagementNested() ensures Nested(EncounterManagement) {}
  lemma EncounterManagementShape() ensures IsModule(EncounterManagement) && Nested(EncounterManagement) { EncounterManagementKind(); EncounterManagementNested(); }
  lemma EncounterManagementCodes() ensures SiblingsDistinct(EncounterManagement) {}
  lemma ClinicalDataKind() ensures IsModule(ClinicalData) {}
  lemma ClinicalDataNested() ensures Nested(ClinicalData) {}
  lemma ClinicalDataShape() ensures IsModule(ClinicalData) && Nested(ClinicalData) { ClinicalDataKind(); ClinicalDataNested(); }
  lemma ClinicalDataCodes() ensures SiblingsDistinct(ClinicalData) {}
  lemma MedicationManagementKind() ensures IsModule(MedicationManagement) {}
  lemma MedicationManagementNested() ensures Nested(MedicationManagement) {}
  lemma MedicationManagementShape() ensures IsModule(MedicationManagement) && Nested(MedicationManagement) { MedicationManagementKind(); MedicationManagementNested(); }
  lemma MedicationManagementCodes() ensures SiblingsDistinct(MedicationManagement) {}

  lemma ClinicalDomainShape()
    ensures IsDomain(ClinicalDomain) && Nested(ClinicalDomain) && Width(ClinicalDomain, 6)
  {
    PatientManagementShape(); EncounterManagementShape(); ClinicalDataShape(); MedicationManagementShape();
  }

  lemma ClinicalDomainCodes() ensures SiblingsDistinct(ClinicalDomain) {}

  lemma ClinicalDomainLayered()
    ensures Layered(ClinicalDomain)
  {
    ClinicalDomainShape(); ClinicalDomainCodes(); WidthAligned(ClinicalDomain, 6);
    PatientManagementShape(); PatientManagementCodes(); ModuleLayered(PatientManagement);
    EncounterManagementShape(); EncounterManagementCodes(); ModuleLayered(EncounterManagement);
    ClinicalDataShape(); ClinicalDataCodes(); ModuleLayered(ClinicalData);
    MedicationManagementShape(); MedicationManagementCodes(); ModuleLayered(MedicationManagement);
  }

  lemma ClinicalDomainDeps()
    ensures FlatDeps(ClinicalDomain) == ["CD.1.1", "CD.1.2", "CD.1.1", "CD.1.2"]
  {
    PatientManagementShape(); ModuleFlatDeps(PatientManagement);
    EncounterManagementShape(); ModuleFlatDeps(EncounterManagement);
    ClinicalDataShape(); ModuleFlatDeps(ClinicalData);
    MedicationManagementShape(); ModuleFlatDeps(MedicationManagement);
    assert FlatDepsFrom(ClinicalDomain, 4) == [];
    assert FlatDepsFrom(ClinicalDomain, 3) == ["CD.1.1", "CD.1.2"];
    assert FlatDepsFrom(ClinicalDomain, 2) == ["CD.1.2", "CD.1.1", "CD.1.2"];
    assert FlatDepsFrom(ClinicalDomain, 1) == ["CD.1.1", "CD.1.2", "CD.1.1", "CD.1.2"];
  }

  // ---------------------------------------------------------------------
  // OperationalDomain

  lemma InventoryManagementKind() ensures IsModule(InventoryManagement) {}
  lemma InventoryManagementNested() ensures Nested(InventoryManagement) {}
  lemma InventoryManagementShape() ensures IsModule(InventoryManagement) && Nested(InventoryManagement) { InventoryManagementKind(); InventoryManagementNested(); }
  lemma InventoryManagementCodes() ensures SiblingsDistinct(InventoryManagement) {}
  lemma PharmacyManagementKind() ensures IsModule(PharmacyManagement) {}
  lemma PharmacyManagementNested() ensures Nested(PharmacyManagement) {}
  lemma PharmacyManagementShape() ensures IsModule(PharmacyManagement) && Nested(PharmacyManagement) { PharmacyManagementKind(); PharmacyManagementNested(); }
  lemma PharmacyManagementCodes() ensures SiblingsDistinct(PharmacyManagement) {}
  lemma BillingFinanceKind() ensures IsModule(BillingFinance) {}
  lemma BillingFinanceNested() ensures Nested(BillingFinance) {}
  lemma BillingFinanceShape() ensures IsModule(BillingFinance) && Nested(BillingFinance) { BillingFinanceKind(); BillingFinanceNested(); }
  lemma BillingFinanceCodes() ensures SiblingsDistinct(BillingFinance) {}
  lemma HRManagementKind() ensures IsModule(HRManagement) {}
  lemma HRManagementNested() ensures Nested(HRManagement) {}
  lemma HRManagementShape() ensures IsModule(HRManagement) && Nested(HRManagement) { HRManagementKind(); HRManagementNested(); }
  lemma HRManagementCodes() ensures SiblingsDistinct(HRManagement) {}

  lemma OperationalDomainShape()
    ensures IsDomain(OperationalDomain) && Nested(OperationalDomain) && Width(OperationalDomain, 6)
  {
    InventoryManagementShape(); PharmacyManagementShape(); BillingFinanceShape(); HRManagementShape();
  }

  lemma OperationalDomainCodes() ensures SiblingsDistinct(OperationalDomain) {}

  lemma OperationalDomainLayered()
    ensures Layered(OperationalDomain)
  {
    OperationalDomainShape(); OperationalDomainCodes(); WidthAligned(OperationalDomain, 6);
    InventoryManagementShape(); InventoryManagementCodes(); ModuleLayered(InventoryManagement);
    PharmacyManagementShape(); PharmacyManagementCodes(); ModuleLayered(PharmacyManagement);
    BillingFinanceShape(); BillingFinanceCodes(); ModuleLayered(BillingFinance);
    HRManagementShape(); HRManagementCodes(); ModuleLayered(HRManagement);
  }

  lemma OperationalDomainDeps()
    ensures FlatDeps(OperationalDomain) == ["CD.1.4", "OD.2.1", "CD.1.2"]
  {
    InventoryManagementShape(); ModuleFlatDeps(InventoryManagement);
    PharmacyManagementShape(); ModuleFlatDeps(PharmacyManagement);
    BillingFinanceShape(); ModuleFlatDeps(BillingFinance);
    HRManagementShape(); ModuleFlatDeps(HRManagement);
    assert FlatDepsFrom(OperationalDomain, 4) == [];
    assert FlatDepsFrom(OperationalDomain, 3) == [];
    assert FlatDepsFrom(OperationalDomain, 2) == ["CD.1.2"];
    assert FlatDepsFrom(OperationalDomain, 1) == ["CD.1.4", "OD.2.1", "CD.1.2"];
  }

  // ---------------------------------------------------------------------
  // AnalyticsDomain

  lemma DashboardKind() ensures IsModule(Dashboard) {}
  lemma DashboardNested() ensures Nested(Dashboard) {}
  lemma DashboardShape() ensures IsModule(Dashboard) && Nested(Dashboard) { DashboardKind(); DashboardNested(); }
  lemma DashboardCodes() ensures SiblingsDistinct(Dashboard) {}
  lemma ReportingKind() ensures IsModule(Reporting) {}
  lemma ReportingNested() ensures Nested(Reporting) {}
  lemma ReportingShape() ensures IsModule(Reporting) && Nested(Reporting) { ReportingKind(); ReportingNested(); }
  lemma ReportingCodes() ensures SiblingsDistinct(Reporting) {}
  lemma KPIModuleKind() ensures IsModule(KPIModule) {}
  lemma KPIModuleNested() ensures Nested(KPIModule) {}
  lemma KPIModuleShape() ensures IsModule(KPIModule) && Nested(KPIModule) { KPIModuleKind(); KPIModuleNested(); }
  lemma KPIModuleCodes() ensures SiblingsDistinct(KPIModule) {}
  lemma DataWarehouseKind() ensures IsModule(DataWarehouse) {}
  lemma DataWarehouseNested() ensures Nested(DataWarehouse) {}
  lemma DataWarehouseShape() ensures IsModule(DataWarehouse) && Nested(DataWarehouse) { DataWarehouseKind(); DataWarehouseNested(); }
  lemma DataWarehouseCodes() ensures SiblingsDistinct(DataWarehouse) {}

  lemma AnalyticsDomainShape()
    ensures IsDomain(AnalyticsDomain) && Nested(AnalyticsDomain) && Width(AnalyticsDomain, 6)
  {
    DashboardShape(); ReportingShape(); KPIModuleShape(); DataWarehouseShape();
  }

  lemma AnalyticsDomainCodes() ensures SiblingsDistinct(AnalyticsDomain) {}

  lemma AnalyticsDomainLayered()
    ensures Layered(AnalyticsDomain)
  {
    AnalyticsDomainShape(); AnalyticsDomainCodes(); WidthAligned(AnalyticsDomain, 6);
    DashboardShape(); DashboardCodes(); ModuleLayered(Dashboard);
    ReportingShape(); ReportingCodes(); ModuleLayered(Reporting);
    KPIModuleShape(); KPIModuleCodes(); ModuleLayered(KPIModule);
    DataWarehouseShape(); DataWarehouseCodes(); ModuleLayered(DataWarehouse);
  }

  lemma AnalyticsDomainDeps()
    ensures FlatDeps(AnalyticsDomain) == ["CD.1.1", "CD.1.2", "OD.2.3"]
  {
    DashboardShape(); ModuleFlatDeps(Dashboard);
    ReportingShape(); ModuleFlatDeps(Reporting);
    KPIModuleShape(); ModuleFlatDeps(KPIModule);
    DataWarehouseShape(); ModuleFlatDeps(DataWarehouse);
    assert FlatDepsFrom(AnalyticsDomain, 4) == [];
    assert FlatDepsFrom(AnalyticsDomain, 3) == [];
    assert FlatDepsFrom(AnalyticsDomain, 2) == [];
    assert FlatDepsFrom(AnalyticsDomain, 1) == [];
  }

  // ---------------------------------------------------------------------
  // IntegrationDomain

  lemma OpenMRSIntegrationKind() ensures IsModule(OpenMRSIntegration) {}
  lemma OpenMRSIntegrationNested() ensures Nested(OpenMRSIntegration) {}
  lemma OpenMRSIntegrationShape() ensures IsModule(OpenMRSIntegration) && Nested(OpenMRSIntegration) { OpenMRSIntegrationKind(); OpenMRSIntegrationNested(); }
  lemma OpenMRSIntegrationCodes() ensures SiblingsDistinct(OpenMRSIntegration) {}
  lemma OdooIntegrationKind() ensures IsModule(OdooIntegration) {}
  lemma OdooIntegrationNested() ensures Nested(OdooIntegration) {}
  lemma OdooIntegrationShape() ensures IsModule(OdooIntegration) && Nested(OdooIntegration) { OdooIntegrationKind(); OdooIntegrationNested(); }
  lemma OdooIntegrationCodes() ensures SiblingsDistinct(OdooIntegration) {}
  lemma DHIS2IntegrationKind() ensures IsModule(DHIS2Integration) {}
  lemma DHIS2IntegrationNested() ensures Nested(DHIS2Integration) {}
  lemma DHIS2IntegrationShape() ensures IsModule(DHIS2Integration) && Nested(DHIS2Integration) { DHIS2IntegrationKind(); DHIS2IntegrationNested(); }
  lemma DHIS2IntegrationCodes() ensures SiblingsDistinct(DHIS2Integration) {}
  lemma FHIRComplianceKind() ensures IsModule(FHIRCompliance) {}
  lemma FHIRComplianceNested() ensures Nested(FHIRCompliance) {}
  lemma FHIRComplianceShape() ensures IsModule(FHIRCompliance) && Nested(FHIRCompliance) { FHIRComplianceKind(); FHIRComplianceNested(); }
  lemma FHIRComplianceCodes() ensures SiblingsDistinct(FHIRCompliance) {}
  lemma HL7SupportKind() ensures IsModule(HL7Support) {}
  lemma HL7SupportNested() ensures Nested(HL7Support) {}
  lemma HL7SupportShape() ensures IsModule(HL7Support) && Nested(HL7Support) { HL7SupportKind(); HL7SupportNested(); }
  lemma HL7SupportCodes() ensures SiblingsDistinct(HL7Support) {}

  lemma IntegrationDomainShape()
    ensures IsDomain(IntegrationDomain) && Nested(IntegrationDomain) && Width(IntegrationDomain, 6)
  {
    OpenMRSIntegrationShape(); OdooIntegrationShape(); DHIS2IntegrationShape(); FHIRComplianceShape(); HL7SupportShape();
  }

  lemma IntegrationDomainCodes() ensures SiblingsDistinct(IntegrationDomain) {}

  lemma IntegrationDomainLayered()
    ensures Layered(IntegrationDomain)
  {
    IntegrationDomainShape(); IntegrationDomainCodes(); WidthAligned(IntegrationDomain, 6);
    OpenMRSIntegrationShape(); OpenMRSIntegrationCodes(); ModuleLayered(OpenMRSIntegration);
    OdooIntegrationShape(); OdooIntegrationCodes(); ModuleLayered(OdooIntegration);
    DHIS2IntegrationShape(); DHIS2IntegrationCodes(); ModuleLayered(DHIS2Integration);
    FHIRComplianceShape(); FHIRComplianceCodes(); ModuleLayered(FHIRCompliance);
    HL7SupportShape(); HL7SupportCodes(); ModuleLayered(HL7Support);
  }

  lemma IntegrationDomainDeps()
    ensures FlatDeps(IntegrationDomain) == ["CD.1.1", "CD.1.2", "OD.2.1", "OD.2.3"]
  {
    OpenMRSIntegrationShape(); ModuleFlatDeps(OpenMRSIntegration);
    OdooIntegrationShape(); ModuleFlatDeps(OdooIntegration);
    DHIS2IntegrationShape(); ModuleFlatDeps(DHIS2Integration);
    FHIRComplianceShape(); ModuleFlatDeps(FHIRCompliance);
    HL7SupportShape(); ModuleFlatDeps(HL7Support);
    assert FlatDepsFrom(IntegrationDomain, 5) == [];
    assert FlatDepsFrom(IntegrationDomain, 4) == [];
    assert FlatDepsFrom(IntegrationDomain, 3) == [];
    assert FlatDepsFrom(IntegrationDomain, 2) == [];
    assert FlatDepsFrom(IntegrationDomain, 1) == ["OD.2.1", "OD.2.3"];
  }

  // ---------------------------------------------------------------------
  // InfrastructureDomain

  lemma AuthenticationKind() ensures IsModule(Authentication) {}
  lemma AuthenticationNested() ensures Nested(Authentication) {}
  lemma AuthenticationShape() ensures IsModule(Authentication) && Nested(Authentication) { AuthenticationKind(); AuthenticationNested(); }
  lemma AuthenticationCodes() ensures SiblingsDistinct(Authentication) {}
  lemma AuthorizationKind() ensures IsModule(Authorization) {}
  lemma AuthorizationNested() ensures Nested(Authorization) {}
  lemma AuthorizationShape() ensures IsModule(Authorization) && Nested(Authorization) { AuthorizationKind(); AuthorizationNested(); }
  lemma AuthorizationCodes() ensures SiblingsDistinct(Authorization) {}
  lemma AuditKind() ensures IsModule(Audit) {}
  lemma AuditNested() ensures Nested(Audit) {}
  lemma AuditShape() ensures IsModule(Audit) && Nested(Audit) { AuditKind(); AuditNested(); }
  lemma AuditCodes() ensures SiblingsDistinct(Audit) {}
  lemma NotificationKind() ensures IsModule(Notification) {}
  lemma NotificationNested() ensures Nested(Notification) {}
  lemma NotificationShape() ensures IsModule(Notification) && Nested(Notification) { NotificationKind(); NotificationNested(); }
  lemma NotificationCodes() ensures SiblingsDistinct(Notification) {}
  lemma FileStorageKind() ensures IsModule(FileStorage) {}
  lemma FileStorageNested() ensures Nested(FileStorage) {}
  lemma FileStorageShape() ensures IsModule(FileStorage) && Nested(FileStorage) { FileStorageKind(); FileStorageNested(); }
  lemma FileStorageCodes() ensures SiblingsDistinct(FileStorage) {}
  lemma CachingKind() ensures IsModule(Caching) {}
  lemma CachingNested() ensures Nested(Caching) {}
  lemma CachingShape() ensures IsModule(Caching) && Nested(Caching) { CachingKind(); CachingNested(); }
  lemma CachingCodes() ensures SiblingsDistinct(Caching) {}
  lemma SearchKind() ensures IsModule(Search) {}
  lemma SearchNested() ensures Nested(Search) {}
  lemma SearchShape() ensures IsModule(Search) && Nested(Search) { SearchKind(); SearchNested(); }
  lemma SearchCodes() ensures SiblingsDistinct(Search) {}

  lemma InfrastructureDomainShape()
    ensures IsDomain(InfrastructureDomain) && Nested(InfrastructureDomain) && Width(InfrastructureDomain, 6)
  {
    AuthenticationShape(); AuthorizationShape(); AuditShape(); NotificationShape(); FileStorageShape(); CachingShape(); SearchShape();
  }

  lemma InfrastructureDomainCodes() ensures SiblingsDistinct(InfrastructureDomain) {}

  lemma InfrastructureDomainLayered()
    ensures Layered(InfrastructureDomain)
  {
    InfrastructureDomainShape(); InfrastructureDomainCodes(); WidthAligned(InfrastructureDomain, 6);
    AuthenticationShape(); AuthenticationCodes(); ModuleLayered(Authentication);
    AuthorizationShape(); AuthorizationCodes(); ModuleLayered(Authorization);
    AuditShape(); AuditCodes(); ModuleLayered(Audit);
    NotificationShape(); NotificationCodes(); ModuleLayered(Notification);
    FileStorageShape(); FileStorageCodes(); ModuleLayered(FileStorage);
    CachingShape(); CachingCodes(); ModuleLayered(Caching);
    SearchShape(); SearchCodes(); ModuleLayered(Search);
  }

  lemma InfrastructureDomainDeps()
    ensures FlatDeps(InfrastructureDomain) == ["IF.5.1"]
  {
    AuthenticationShape(); ModuleFlatDeps(Authentication);
    AuthorizationShape(); ModuleFlatDeps(Authorization);
    AuditShape(); ModuleFlatDeps(Audit);
    NotificationShape(); ModuleFlatDeps(Notification);
    FileStorageShape(); ModuleFlatDeps(FileStorage);
    CachingShape(); ModuleFlatDeps(Caching);
    SearchShape(); ModuleFlatDeps(Search);
    assert FlatDepsFrom(InfrastructureDomain, 7) == [];
    assert FlatDepsFrom(InfrastructureDomain, 6) == [];
    assert FlatDepsFrom(InfrastructureDomain, 5) == [];
    assert FlatDepsFrom(InfrastructureDomain, 4) == [];
    assert FlatDepsFrom(InfrastructureDomain, 3) == [];
    assert FlatDepsFrom(InfrastructureDomain, 2) == [];
    assert FlatDepsFrom(InfrastructureDomain, 1) == ["IF.5.1"];
  }
}
